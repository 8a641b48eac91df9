/** Parsing undoes printing. */
module Printer {
  import opened Wrappers
  import Hex
  import opened Text
  import opened BooleanExpr
  import opened Grammar

  predicate ParenFree(keyword: string) {
    forall i :: 0 <= i < |keyword| ==> keyword[i] != '(' && keyword[i] != ')'
  }

  /** No operator stands alone inside the keyword. */
  predicate OperatorFree(keyword: string) {
    forall i: nat :: i < |keyword| ==> !AnyOperatorAt(keyword, i)
  }

  predicate Clean(keyword: string) {
    Trimmed(keyword) && OperatorFree(keyword)
  }

  predicate CleanKeywords(e: Expr) {
    match e
    case Keyword(kw) => Clean(kw)
    case And(l, r) => CleanKeywords(l) && CleanKeywords(r)
    case Or(l, r) => CleanKeywords(l) && CleanKeywords(r)
    case Not(x) => CleanKeywords(x)
  }

  predicate ParenFreeKeywords(e: Expr) {
    match e
    case Keyword(kw) => ParenFree(kw)
    case And(l, r) => ParenFreeKeywords(l) && ParenFreeKeywords(r)
    case Or(l, r) => ParenFreeKeywords(l) && ParenFreeKeywords(r)
    case Not(x) => ParenFreeKeywords(x)
  }

  // ----- trimming

  lemma TrimOfTrimmed(kw: string)
    requires Trimmed(kw)
    ensures Trim(kw) == kw && Trim(kw + [' ']) == kw
  {
    assert TrimStart(kw + [' ']) == kw + [' '];
    assert (kw + [' '])[..|kw|] == kw;
    assert TrimEnd(kw + [' ']) == TrimEnd(kw);
  }

  // ----- keywords

  /** A part of what stands at `p` stands at its own place. */
  lemma PartStands(s: string, p: nat, whole: string, i: nat, part: string)
    requires StartsWith(s, p, whole) && i + |part| <= |whole| && whole[i..i + |part|] == part
    ensures StartsWith(s, p + i, part)
  {
    forall j | 0 <= j < |part| ensures s[p + i + j] == part[j] {
      assert s[p..p + |whole|][i + j] == whole[i + j] == whole[i..i + |part|][j];
    }
  }

  /** What may come after a printed subexpression. */
  predicate Follow(s: string, q: nat, allow: bool) {
    q == |s| || (allow && PeekIs(s, q, ')')) ||
    (PeekIs(s, q, ' ') && (MatchesOperatorAt(s, q + 1, "AND") || MatchesOperatorAt(s, q + 1, "OR")))
  }

  predicate Letters(op: string) {
    op != "" && forall i :: 0 <= i < |op| ==> 'A' <= op[i] <= 'Z'
  }

  lemma CharStands(s: string, p: nat, t: string, j: nat)
    requires StartsWith(s, p, t) && j < |t|
    ensures s[p + j] == t[j]
  {
    assert s[p..p + |t|][j] == t[j];
  }

  lemma OperatorReaches(s: string, p: nat, len: nat, i: nat, op: string)
    requires i < len && Letters(op) && StartsWith(s, p + i, op)
    ensures i + |op| > len ==> p + len < |s| && 'A' <= s[p + len] <= 'Z'
  {
    if i + |op| > len {
      CharStands(s, p + i, op, len - i);
    }
  }

  /** An operator that begins inside a keyword ends inside it. */
  lemma OperatorFits(s: string, p: nat, kw: string, allow: bool, i: nat, op: string)
    requires StartsWith(s, p, kw) && Follow(s, p + |kw|, allow) && i < |kw| && Letters(op) && StartsWith(s, p + i, op)
    ensures i + |op| <= |kw|
  {
    OperatorReaches(s, p, |kw|, i, op);
  }

  lemma OperatorIsInside(s: string, p: nat, kw: string, allow: bool, i: nat, op: string)
    requires StartsWith(s, p, kw) && Follow(s, p + |kw|, allow) && i < |kw| && Letters(op)
    requires MatchesOperatorAt(s, p + i, op)
    ensures MatchesOperatorAt(kw, i, op)
  {
    OperatorFits(s, p, kw, allow, i, op);
    forall j | 0 <= j < |kw| ensures kw[j] == s[p + j] {
      CharStands(s, p, kw, j);
    }
    forall j | 0 <= j < |op| ensures kw[i + j] == op[j] {
      CharStands(s, p + i, op, j);
    }
    assert kw[i..i + |op|] == op;
  }

  lemma NothingInside(s: string, p: nat, kw: string, allow: bool, i: nat)
    requires StartsWith(s, p, kw) && Follow(s, p + |kw|, allow) && i < |kw| && OperatorFree(kw)
    ensures !AnyOperatorAt(s, p + i)
  {
    assert !AnyOperatorAt(kw, i);
    if MatchesOperatorAt(s, p + i, "AND") {
      OperatorIsInside(s, p, kw, allow, i, "AND");
    }
    if MatchesOperatorAt(s, p + i, "OR") {
      OperatorIsInside(s, p, kw, allow, i, "OR");
    }
    if MatchesOperatorAt(s, p + i, "NOT") {
      OperatorIsInside(s, p, kw, allow, i, "NOT");
    }
  }

  lemma {:induction false} PhrasePasses(s: string, p: nat, kw: string, allow: bool, i: nat)
    requires StartsWith(s, p, kw) && Follow(s, p + |kw|, allow) && i <= |kw| && OperatorFree(kw) && ParenFree(kw)
    ensures PhraseEnd(s, p + i, allow) == PhraseEnd(s, p + |kw|, allow)
    decreases |kw| - i
  {
    if i < |kw| {
      NothingInside(s, p, kw, allow, i);
      assert s[p + i] == kw[i];
      PhrasePasses(s, p, kw, allow, i + 1);
    }
  }

  lemma PhraseStops(s: string, q: nat, allow: bool)
    requires Follow(s, q, allow)
    ensures
      var end := PhraseEnd(s, q, allow);
      end == q || (end == q + 1 && s[q] == ' ')
  {
    if PeekIs(s, q, ' ') {
      assert !StartsWith(s, q, "AND") && !StartsWith(s, q, "OR") && !StartsWith(s, q, "NOT") by {
        assert forall op: string :: StartsWith(s, q, op) && op != "" ==> op[0] == s[q];
      }
    }
  }

  /** The factor at `p` is `e`, and it ends at `q` up to whitespace. */
  predicate Reads(s: string, p: nat, allow: bool, e: Expr, q: nat) {
    p <= |s| && q <= |s| &&
    var r := ParseFactor(s, p, allow);
    r.Ok? && r.value.0 == e && SkipWhitespace(s, r.value.1) == SkipWhitespace(s, q)
  }

  lemma KeywordReads(s: string, p: nat, kw: string, allow: bool)
    requires StartsWith(s, p, kw) && Follow(s, p + |kw|, allow) && Clean(kw) && ParenFree(kw)
    ensures Reads(s, p, allow, Keyword(kw), p + |kw|)
  {
    assert s[p] == s[p..p + |kw|][0] == kw[0];
    NothingInside(s, p, kw, allow, 0);
    PhraseReads(s, p, kw, allow);
    FactorIsPhrase(s, p, allow);
  }

  lemma PhraseReads(s: string, p: nat, kw: string, allow: bool)
    requires StartsWith(s, p, kw) && Follow(s, p + |kw|, allow) && Clean(kw) && ParenFree(kw)
    ensures
      var r := ParseKeywordPhrase(s, p, allow);
      && r.Ok? && r.value.0 == Keyword(kw)
      && SkipWhitespace(s, r.value.1) == SkipWhitespace(s, p + |kw|)
  {
    var q := p + |kw|;
    PhrasePasses(s, p, kw, allow, 0);
    PhraseStops(s, q, allow);
    var end := PhraseEnd(s, p, allow);
    PhraseIs(s, p, kw, end);
    PhraseTrims(s[p..end], kw);
    if end != q {
      BlankIsSkipped(s, q);
    }
  }

  lemma PhraseTrims(phrase: string, kw: string)
    requires Trimmed(kw) && (phrase == kw || phrase == kw + [' '])
    ensures Trim(phrase) == kw
  {
    TrimOfTrimmed(kw);
  }

  lemma PhraseIs(s: string, p: nat, kw: string, end: nat)
    requires StartsWith(s, p, kw)
    requires end == p + |kw| || (end == p + |kw| + 1 && PeekIs(s, p + |kw|, ' '))
    ensures end <= |s| && (s[p..end] == kw || s[p..end] == kw + [' '])
  {
    if end == p + |kw| {
      assert s[p..end] == kw;
    } else {
      WithBlank(s, p, kw);
    }
  }

  lemma BlankIsSkipped(s: string, q: nat)
    requires PeekIs(s, q, ' ')
    ensures SkipWhitespace(s, q + 1) == SkipWhitespace(s, q)
  {}

  lemma WithBlank(s: string, p: nat, t: string)
    requires StartsWith(s, p, t) && PeekIs(s, p + |t|, ' ')
    ensures s[p..p + |t| + 1] == t + [' ']
  {
    assert s[p..p + |t| + 1] == s[p..p + |t|] + [s[p + |t|]];
  }

  lemma FactorIsPhrase(s: string, p: nat, allow: bool)
    requires p < |s| && !IsWhitespace(s[p]) && s[p] != '(' && !AnyOperatorAt(s, p)
    ensures ParseFactor(s, p, allow) == ParseKeywordPhrase(s, p, allow)
  {
    assert SkipWhitespace(s, p) == p;
  }

  // ----- groups

  lemma {:induction false} ParenSearchSkips(s: string, p: nat, t: string, depth: nat)
    requires StartsWith(s, p, t) && ParenFree(t)
    ensures FindMatchingParen(s, p, depth) == FindMatchingParen(s, p + |t|, depth)
    decreases |t|
  {
    if t != "" {
      assert s[p] == t[0];
      assert s[p + 1..p + |t|] == t[1..];
      ParenSearchSkips(s, p + 1, t[1..], depth);
    }
  }

  /** Where the parts of a group lie: `(`, a left part, a middle, a right part and `)`. */
  predicate Group(s: string, p: nat, left: string, middle: string, right: string) {
    && PeekIs(s, p, '(') && StartsWith(s, p + 1, left)
    && StartsWith(s, p + 1 + |left|, middle) && StartsWith(s, p + 1 + |left| + |middle|, right)
    && PeekIs(s, p + 1 + |left| + |middle| + |right|, ')')
  }

  lemma Layout(s: string, p: nat, left: string, middle: string, right: string)
    requires StartsWith(s, p, "(" + left + middle + right + ")")
    ensures Group(s, p, left, middle, right)
  {
    var whole := "(" + left + middle + right + ")";
    var m, r := 1 + |left|, 1 + |left| + |middle|;
    PartStands(s, p, whole, 0, "(");
    assert whole[1..m] == left;
    PartStands(s, p, whole, 1, left);
    assert whole[m..r] == middle;
    PartStands(s, p, whole, m, middle);
    assert whole[r..r + |right|] == right;
    PartStands(s, p, whole, r, right);
    assert whole[r + |right|..r + |right| + 1] == ")";
    PartStands(s, p, whole, r + |right|, ")");
  }

  /** The parts of a printed expression that is not a keyword. */
  function Left(e: Expr): string
    requires !e.Keyword?
  {
    if e.Not? then "NOT " else e.left.ToString()
  }

  function Middle(e: Expr): string
    requires !e.Keyword?
  {
    if e.Not? then "" else if e.And? then " AND " else " OR "
  }

  function Right(e: Expr): Expr
    requires !e.Keyword?
  {
    if e.Not? then e.operand else e.right
  }

  lemma PrintedIsGroup(s: string, p: nat, e: Expr)
    requires StartsWith(s, p, e.ToString()) && !e.Keyword?
    ensures Group(s, p, Left(e), Middle(e), Right(e).ToString())
    ensures |e.ToString()| == 2 + |Left(e)| + |Middle(e)| + |Right(e).ToString()|
  {
    assert e.ToString() == "(" + Left(e) + Middle(e) + Right(e).ToString() + ")";
    Layout(s, p, Left(e), Middle(e), Right(e).ToString());
  }

  lemma ParenOpens(s: string, p: nat, depth: nat)
    requires PeekIs(s, p, '(')
    ensures FindMatchingParen(s, p, depth) == FindMatchingParen(s, p + 1, depth + 1)
  {}

  lemma ParenCloses(s: string, p: nat, depth: nat)
    requires PeekIs(s, p, ')')
    ensures FindMatchingParen(s, p, depth) == if depth <= 1 then Some(p) else FindMatchingParen(s, p + 1, depth - 1)
  {}

  /** The search at nesting `depth` passes over the text between `p` and `q`. */
  predicate Passes(s: string, p: nat, q: nat, depth: nat) {
    FindMatchingParen(s, p, depth) == FindMatchingParen(s, q, depth)
  }

  /** A group whose parts the search passes over is itself passed over, or closes the search. */
  lemma GroupPasses(s: string, p: nat, left: string, middle: string, right: string, depth: nat)
    requires Group(s, p, left, middle, right)
    requires Passes(s, p + 1, p + 1 + |left|, depth + 1)
    requires Passes(s, p + 1 + |left|, p + 1 + |left| + |middle|, depth + 1)
    requires Passes(s, p + 1 + |left| + |middle|, p + 1 + |left| + |middle| + |right|, depth + 1)
    ensures
      var close := p + 1 + |left| + |middle| + |right|;
      FindMatchingParen(s, p, depth) == if depth == 0 then Some(close) else FindMatchingParen(s, close + 1, depth)
  {
    var close := p + 1 + |left| + |middle| + |right|;
    ParenOpens(s, p, depth);
    ParenCloses(s, close, depth + 1);
  }

  lemma {:induction false} PrintedPasses(s: string, p: nat, e: Expr, depth: nat)
    requires StartsWith(s, p, e.ToString()) && ParenFreeKeywords(e) && depth > 0
    ensures Passes(s, p, p + |e.ToString()|, depth)
    decreases e, 2
  {
    if e.Keyword? {
      ParenSearchSkips(s, p, e.keyword, depth);
    } else {
      GroupCloses(s, p, e, depth);
    }
  }

  /** Where the group printed at `p` closes. */
  lemma {:induction false} GroupCloses(s: string, p: nat, e: Expr, depth: nat)
    requires StartsWith(s, p, e.ToString()) && ParenFreeKeywords(e) && !e.Keyword?
    ensures
      var after := p + |e.ToString()|;
      FindMatchingParen(s, p, depth) == if depth == 0 then Some(after - 1) else FindMatchingParen(s, after, depth)
    decreases e, 1
  {
    PrintedIsGroup(s, p, e);
    GroupClosesAt(s, p, e, Right(e).ToString(), p + |e.ToString()|, depth);
  }

  lemma {:induction false} GroupClosesAt(s: string, p: nat, e: Expr, right: string, after: nat, depth: nat)
    requires !e.Keyword? && ParenFreeKeywords(e) && right == Right(e).ToString()
    requires Group(s, p, Left(e), Middle(e), right) && after == p + 2 + |Left(e)| + |Middle(e)| + |right|
    ensures FindMatchingParen(s, p, depth) == if depth == 0 then Some(after - 1) else FindMatchingParen(s, after, depth)
    decreases e, 0, 2
  {
    PartsPass(s, p, e, right, depth);
    GroupPasses(s, p, Left(e), Middle(e), right, depth);
  }

  lemma {:induction false} PartsPass(s: string, p: nat, e: Expr, right: string, depth: nat)
    requires !e.Keyword? && ParenFreeKeywords(e) && right == Right(e).ToString()
    requires StartsWith(s, p + 1, Left(e)) && StartsWith(s, p + 1 + |Left(e)|, Middle(e))
    requires StartsWith(s, p + 1 + |Left(e)| + |Middle(e)|, right)
    ensures Passes(s, p + 1, p + 1 + |Left(e)|, depth + 1)
    ensures Passes(s, p + 1 + |Left(e)|, p + 1 + |Left(e)| + |Middle(e)|, depth + 1)
    ensures Passes(s, p + 1 + |Left(e)| + |Middle(e)|, p + 1 + |Left(e)| + |Middle(e)| + |right|, depth + 1)
    decreases e, 0, 1
  {
    LeftPasses(s, p + 1, e, depth + 1);
    ParenSearchSkips(s, p + 1 + |Left(e)|, Middle(e), depth + 1);
    PrintedPasses(s, p + 1 + |Left(e)| + |Middle(e)|, Right(e), depth + 1);
  }

  lemma {:induction false} LeftPasses(s: string, p: nat, e: Expr, depth: nat)
    requires !e.Keyword? && StartsWith(s, p, Left(e)) && ParenFreeKeywords(e) && depth > 0
    ensures Passes(s, p, p + |Left(e)|, depth)
    decreases e, 0, 0
  {
    if e.Not? {
      ParenSearchSkips(s, p, "NOT ", depth);
    } else {
      PrintedPasses(s, p, e.left, depth);
    }
  }

  // ----- a group holds an operator

  lemma {:induction false} ContainsFrom(s: string, start: nat, end: nat, from: nat, i: nat)
    requires start <= from <= i < end <= |s| && !IsOperatorBoundary(s[i]) && AnyOperatorWithin(s, start, end, i)
    ensures ContainsOperatorFrom(s, start, end, from)
    decreases i - from
  {
    if from < i {
      ContainsFrom(s, start, end, from + 1, i);
    }
  }

  /** An operator between blanks, or right after the parenthesis, makes a group. */
  lemma GroupHolds(s: string, p: nat, close: nat, i: nat, op: string)
    requires PeekIs(s, p, '(') && FindMatchingParen(s, p, 0) == Some(close) && p < i && i + |op| < close
    requires op in {"AND", "OR", "NOT"} && StartsWith(s, i, op)
    requires i == p + 1 || IsWhitespace(s[i - 1])
    requires PeekIs(s, i + |op|, ' ')
    ensures LooksLikeGroup(s, p)
  {
    assert s[..close][i..i + |op|] == s[i..i + |op|];
    CharStands(s, i, op, 0);
    assert OperatorWithin(s, p + 1, close, i, op);
    ContainsFrom(s, p + 1, close, p + 1, i);
  }

  // ----- reading back

  lemma Skips(s: string, p: nat)
    requires p < |s| && !IsWhitespace(s[p])
    ensures SkipWhitespace(s, p) == p
    ensures p > 0 && IsWhitespace(s[p - 1]) ==> SkipWhitespace(s, p - 1) == p
  {}

  lemma FactorSkipsBlank(s: string, p: nat, allow: bool)
    requires PeekIs(s, p, ' ') && p + 1 < |s| && !IsWhitespace(s[p + 1])
    ensures ParseFactor(s, p, allow) == ParseFactor(s, p + 1, allow)
  {
    Skips(s, p + 1);
  }

  lemma LoopsEnd(s: string, p: nat, left: Expr, close: nat)
    requires p <= |s| && SkipWhitespace(s, p) == close && PeekIs(s, close, ')')
    ensures TermLoop(s, p, left, true) == Ok((left, close))
    ensures ExpressionLoop(s, p, left, true) == Ok((left, close))
  {}

  /** The right operand of an operator inside a group, up to the closing parenthesis. */
  lemma OperandReads(s: string, f: nat, e: Expr, close: nat)
    requires Reads(s, f, true, e, close) && PeekIs(s, close, ')') && f > 0 && PeekIs(s, f - 1, ' ') && !IsWhitespace(s[f])
    ensures
      var r := ParseFactor(s, f - 1, true);
      r.Ok? && r.value.0 == e && SkipWhitespace(s, r.value.1) == close
    ensures ParseTerm(s, f - 1, true) == Ok((e, close))
  {
    FactorSkipsBlank(s, f - 1, true);
    Skips(s, close);
    LoopsEnd(s, ParseFactor(s, f, true).value.1, e, close);
  }

  lemma AndReads(s: string, a: nat, b: nat, l: Expr, r: Expr, close: nat)
    requires Reads(s, a, true, l, b) && PeekIs(s, b, ' ') && MatchesOperatorAt(s, b + 1, "AND") && PeekIs(s, b + 4, ' ')
    requires b + 5 < |s| && !IsWhitespace(s[b + 5]) && Reads(s, b + 5, true, r, close) && PeekIs(s, close, ')')
    ensures ParseExpression(s, a, true) == Ok((And(l, r), close))
  {
    var p1 := ParseFactor(s, a, true).value.1;
    CharStands(s, b + 1, "AND", 0);
    Skips(s, b + 1);
    Skips(s, close);
    OperandReads(s, b + 5, r, close);
    var p2 := ParseFactor(s, b + 4, true).value.1;
    LoopsEnd(s, p2, And(l, r), close);
    assert TermLoop(s, p1, l, true) == TermLoop(s, p2, And(l, r), true);
    LoopsEnd(s, close, And(l, r), close);
  }

  lemma TermStopsAtOr(s: string, p: nat, left: Expr, c: nat)
    requires p <= |s| && SkipWhitespace(s, p) == c && MatchesOperatorAt(s, c, "OR")
    ensures TermLoop(s, p, left, true) == Ok((left, c))
  {
    CharStands(s, c, "OR", 0);
    if StartsWith(s, c, "AND") {
      CharStands(s, c, "AND", 0);
    }
  }

  lemma OrContinues(s: string, c: nat, l: Expr, r: Expr, close: nat)
    requires MatchesOperatorAt(s, c, "OR") && ParseTerm(s, c + 2, true) == Ok((r, close)) && PeekIs(s, close, ')')
    ensures ExpressionLoop(s, c, l, true) == Ok((Or(l, r), close))
  {
    CharStands(s, c, "OR", 0);
    Skips(s, c);
    Skips(s, close);
    LoopsEnd(s, close, Or(l, r), close);
  }

  lemma OrReads(s: string, a: nat, b: nat, l: Expr, r: Expr, close: nat)
    requires Reads(s, a, true, l, b) && PeekIs(s, b, ' ') && MatchesOperatorAt(s, b + 1, "OR") && PeekIs(s, b + 3, ' ')
    requires b + 4 < |s| && !IsWhitespace(s[b + 4]) && Reads(s, b + 4, true, r, close) && PeekIs(s, close, ')')
    ensures ParseExpression(s, a, true) == Ok((Or(l, r), close))
  {
    OrLeftReads(s, a, b, l);
    OperandReads(s, b + 4, r, close);
    OrContinues(s, b + 1, l, r, close);
  }

  lemma OrLeftReads(s: string, a: nat, b: nat, l: Expr)
    requires Reads(s, a, true, l, b) && PeekIs(s, b, ' ') && MatchesOperatorAt(s, b + 1, "OR")
    ensures ParseTerm(s, a, true) == Ok((l, b + 1))
  {
    CharStands(s, b + 1, "OR", 0);
    Skips(s, b + 1);
    TermStopsAtOr(s, ParseFactor(s, a, true).value.1, l, b + 1);
  }

  lemma NotReads(s: string, a: nat, x: Expr, close: nat)
    requires MatchesOperatorAt(s, a, "NOT") && PeekIs(s, a + 3, ' ')
    requires a + 4 < |s| && !IsWhitespace(s[a + 4]) && Reads(s, a + 4, true, x, close) && PeekIs(s, close, ')')
    ensures ParseExpression(s, a, true) == Ok((Not(x), close))
  {
    CharStands(s, a, "NOT", 0);
    Skips(s, a);
    Skips(s, close);
    OperandReads(s, a + 4, x, close);
    var q := ParseFactor(s, a + 3, true).value.1;
    assert ParseFactor(s, a, true) == Ok((Not(x), q));
    LoopsEnd(s, q, Not(x), close);
    LoopsEnd(s, close, Not(x), close);
  }

  lemma FactorIsGroup(s: string, p: nat, allow: bool, e: Expr, close: nat)
    requires LooksLikeGroup(s, p) && ParseExpression(s, p + 1, true) == Ok((e, close)) && PeekIs(s, close, ')')
    ensures ParseFactor(s, p, allow) == Ok((e, close + 1))
  {
    Skips(s, p);
    Skips(s, close);
    if StartsWith(s, p, "NOT") {
      CharStands(s, p, "NOT", 0);
    }
  }

  // ----- the round trip

  lemma PrintedStarts(e: Expr)
    requires CleanKeywords(e)
    ensures e.ToString() != "" && !IsWhitespace(e.ToString()[0])
  {}

  lemma FollowsClose(s: string, close: nat)
    requires PeekIs(s, close, ')')
    ensures Follow(s, close, true)
  {}

  /** The operator of a printed group stands between boundaries. */
  lemma OperatorStands(s: string, b: nat, op: string)
    requires StartsWith(s, b, " " + op + " ")
    ensures PeekIs(s, b, ' ') && MatchesOperatorAt(s, b + 1, op) && PeekIs(s, b + 1 + |op|, ' ')
  {
    var whole := " " + op + " ";
    assert whole[1..1 + |op|] == op;
    PartStands(s, b, whole, 1, op);
    CharStands(s, b, whole, 0);
    CharStands(s, b, whole, 1 + |op|);
  }

  lemma FirstStands(s: string, p: nat, e: Expr)
    requires StartsWith(s, p, e.ToString()) && CleanKeywords(e)
    ensures p < |s| && !IsWhitespace(s[p])
  {
    PrintedStarts(e);
    CharStands(s, p, e.ToString(), 0);
  }

  ghost predicate Printable(e: Expr) {
    CleanKeywords(e) && ParenFreeKeywords(e)
  }

  lemma BinaryIsGroup(s: string, p: nat, b: nat, close: nat, op: string)
    requires PeekIs(s, p, '(') && FindMatchingParen(s, p, 0) == Some(close) && op in {"AND", "OR"}
    requires p < b && b + 2 + |op| <= close && StartsWith(s, b, " " + op + " ")
    ensures LooksLikeGroup(s, p)
    ensures PeekIs(s, b, ' ') && MatchesOperatorAt(s, b + 1, op) && PeekIs(s, b + 1 + |op|, ' ')
  {
    OperatorStands(s, b, op);
    GroupHolds(s, p, close, b + 1, op);
  }

  function Size(e: Expr): (n: nat)
    ensures n > 0
  {
    match e
    case Keyword(_) => 1
    case And(l, r) => 1 + Size(l) + Size(r)
    case Or(l, r) => 1 + Size(l) + Size(r)
    case Not(x) => 1 + Size(x)
  }

  lemma {:induction false} OperandsRead(s: string, a: nat, l: Expr, b: nat, f: nat, r: Expr, close: nat)
    requires Printable(l) && Printable(r)
    requires StartsWith(s, a, l.ToString()) && b == a + |l.ToString()| && Follow(s, b, true)
    requires StartsWith(s, f, r.ToString()) && close == f + |r.ToString()| && PeekIs(s, close, ')')
    ensures Reads(s, a, true, l, b) && Reads(s, f, true, r, close)
    decreases Size(l) + Size(r), 9
  {
    PrintedReads(s, a, l, true);
    PrintedReads(s, f, r, true);
  }

  lemma {:induction false} AndGroupReads(s: string, a: nat, l: Expr, r: Expr, close: nat)
    requires Printable(l) && Printable(r)
    requires StartsWith(s, a, l.ToString()) && StartsWith(s, a + |l.ToString()| + 5, r.ToString())
    requires close == a + 5 + |l.ToString()| + |r.ToString()| && PeekIs(s, close, ')')
    requires
      var b := a + |l.ToString()|;
      PeekIs(s, b, ' ') && MatchesOperatorAt(s, b + 1, "AND") && PeekIs(s, b + 4, ' ')
    ensures ParseExpression(s, a, true) == Ok((And(l, r), close))
    decreases Size(And(l, r)), 0, 0
  {
    var b := a + |l.ToString()|;
    FirstStands(s, b + 5, r);
    OperandsRead(s, a, l, b, b + 5, r, close);
    AndReads(s, a, b, l, r, close);
  }

  lemma {:induction false} OrGroupReads(s: string, a: nat, l: Expr, r: Expr, close: nat)
    requires Printable(l) && Printable(r)
    requires StartsWith(s, a, l.ToString()) && StartsWith(s, a + |l.ToString()| + 4, r.ToString())
    requires close == a + 4 + |l.ToString()| + |r.ToString()| && PeekIs(s, close, ')')
    requires
      var b := a + |l.ToString()|;
      PeekIs(s, b, ' ') && MatchesOperatorAt(s, b + 1, "OR") && PeekIs(s, b + 3, ' ')
    ensures ParseExpression(s, a, true) == Ok((Or(l, r), close))
    decreases Size(Or(l, r)), 0, 0
  {
    var b := a + |l.ToString()|;
    FirstStands(s, b + 4, r);
    OperandsRead(s, a, l, b, b + 4, r, close);
    OrReads(s, a, b, l, r, close);
  }

  lemma NotIsGroup(s: string, p: nat, close: nat)
    requires PeekIs(s, p, '(') && FindMatchingParen(s, p, 0) == Some(close)
    requires p + 5 <= close && StartsWith(s, p + 1, "NOT ")
    ensures LooksLikeGroup(s, p) && MatchesOperatorAt(s, p + 1, "NOT") && PeekIs(s, p + 4, ' ')
  {
    assert "NOT "[0..3] == "NOT";
    PartStands(s, p + 1, "NOT ", 0, "NOT");
    CharStands(s, p + 1, "NOT ", 3);
    GroupHolds(s, p, close, p + 1, "NOT");
  }

  lemma {:induction false} NotGroupReads(s: string, a: nat, x: Expr, close: nat)
    requires Printable(x) && StartsWith(s, a + 4, x.ToString())
    requires close == a + 4 + |x.ToString()| && PeekIs(s, close, ')')
    requires MatchesOperatorAt(s, a, "NOT") && PeekIs(s, a + 3, ' ')
    ensures ParseExpression(s, a, true) == Ok((Not(x), close))
    decreases Size(Not(x)), 0, 0
  {
    FirstStands(s, a + 4, x);
    PrintedReads(s, a + 4, x, true);
    NotReads(s, a, x, close);
  }

  lemma {:induction false} GroupReads(s: string, p: nat, e: Expr, right: string, close: nat)
    requires Printable(e) && !e.Keyword? && right == Right(e).ToString()
    requires Group(s, p, Left(e), Middle(e), right) && close == p + 1 + |Left(e)| + |Middle(e)| + |right|
    requires FindMatchingParen(s, p, 0) == Some(close)
    ensures LooksLikeGroup(s, p) && ParseExpression(s, p + 1, true) == Ok((e, close))
    decreases Size(e), 1
  {
    match e
    case And(l, r) => AndGroup(s, p, l, r, right, close);
    case Or(l, r) => OrGroup(s, p, l, r, right, close);
    case Not(x) => NotGroup(s, p, x, right, close);
  }

  lemma {:induction false} AndGroup(s: string, p: nat, l: Expr, r: Expr, right: string, close: nat)
    requires Printable(l) && Printable(r) && right == r.ToString()
    requires Group(s, p, l.ToString(), " AND ", right) && close == p + 6 + |l.ToString()| + |right|
    requires FindMatchingParen(s, p, 0) == Some(close)
    ensures LooksLikeGroup(s, p) && ParseExpression(s, p + 1, true) == Ok((And(l, r), close))
    decreases Size(And(l, r)), 0, 1
  {
    BinaryIsGroup(s, p, p + 1 + |l.ToString()|, close, "AND");
    AndGroupReads(s, p + 1, l, r, close);
  }

  lemma {:induction false} OrGroup(s: string, p: nat, l: Expr, r: Expr, right: string, close: nat)
    requires Printable(l) && Printable(r) && right == r.ToString()
    requires Group(s, p, l.ToString(), " OR ", right) && close == p + 5 + |l.ToString()| + |right|
    requires FindMatchingParen(s, p, 0) == Some(close)
    ensures LooksLikeGroup(s, p) && ParseExpression(s, p + 1, true) == Ok((Or(l, r), close))
    decreases Size(Or(l, r)), 0, 1
  {
    BinaryIsGroup(s, p, p + 1 + |l.ToString()|, close, "OR");
    OrGroupReads(s, p + 1, l, r, close);
  }

  lemma {:induction false} NotGroup(s: string, p: nat, x: Expr, right: string, close: nat)
    requires Printable(x) && right == x.ToString()
    requires Group(s, p, "NOT ", "", right) && close == p + 5 + |right|
    requires FindMatchingParen(s, p, 0) == Some(close)
    ensures LooksLikeGroup(s, p) && ParseExpression(s, p + 1, true) == Ok((Not(x), close))
    decreases Size(Not(x)), 0, 1
  {
    NotIsGroup(s, p, close);
    NotGroupReads(s, p + 1, x, close);
  }

  /** A printed expression is read back wherever it stands before a boundary. */
  lemma {:induction false} PrintedReads(s: string, p: nat, e: Expr, allow: bool)
    requires StartsWith(s, p, e.ToString()) && Follow(s, p + |e.ToString()|, allow) && Printable(e)
    ensures Reads(s, p, allow, e, p + |e.ToString()|)
    decreases Size(e), 3
  {
    if e.Keyword? {
      KeywordReads(s, p, e.keyword, allow);
    } else {
      CompositeReads(s, p, e, allow, p + |e.ToString()|);
    }
  }

  lemma {:induction false} CompositeReads(s: string, p: nat, e: Expr, allow: bool, after: nat)
    requires StartsWith(s, p, e.ToString()) && Printable(e) && !e.Keyword? && after == p + |e.ToString()|
    ensures Reads(s, p, allow, e, after)
    decreases Size(e), 2, 1
  {
    GroupCloses(s, p, e, 0);
    PrintedIsGroup(s, p, e);
    PrintedGroupReads(s, p, e, Right(e).ToString(), allow, after - 1);
  }

  lemma {:induction false} PrintedGroupReads(s: string, p: nat, e: Expr, right: string, allow: bool, close: nat)
    requires Printable(e) && !e.Keyword? && right == Right(e).ToString()
    requires Group(s, p, Left(e), Middle(e), right) && close == p + 1 + |Left(e)| + |Middle(e)| + |right|
    requires FindMatchingParen(s, p, 0) == Some(close)
    ensures Reads(s, p, allow, e, close + 1)
    decreases Size(e), 2, 0
  {
    GroupReads(s, p, e, right, close);
    FactorIsGroup(s, p, allow, e, close);
  }

  lemma ParseOfFactor(s: string, e: Expr)
    requires s != "" && !IsWhitespace(s[0]) && Reads(s, 0, false, e, |s|)
    ensures Parse(s) == Ok(e)
  {
    Skips(s, 0);
    var p := ParseFactor(s, 0, false).value.1;
    assert SkipWhitespace(s, p) == |s|;
    assert TermLoop(s, p, e, false) == Ok((e, |s|));
    assert ParseTerm(s, 0, false) == Ok((e, |s|));
    assert ExpressionLoop(s, |s|, e, false) == Ok((e, |s|));
    assert ParseExpression(s, 0, false) == Ok((e, |s|));
  }

  lemma PrintedParses(e: Expr)
    requires Printable(e)
    ensures Parse(e.ToString()) == Ok(e)
  {
    var s := e.ToString();
    PrintedStarts(e);
    assert s[0..|s|] == s;
    PrintedReads(s, 0, e, false);
    ParseOfFactor(s, e);
  }

  // ----- what parsing yields

  /** Where a factor may begin: at either end of the input or next to a boundary. */
  predicate Bounded(s: string, p: nat) {
    p == 0 || p == |s| || (p < |s| && (IsOperatorBoundary(s[p - 1]) || IsOperatorBoundary(s[p])))
  }

  lemma {:induction false} SkipsOverWhitespace(s: string, p: nat)
    requires p <= |s|
    ensures SkipWhitespace(s, p) > p ==> IsWhitespace(s[SkipWhitespace(s, p) - 1])
    decreases |s| - p
  {
    if p < |s| && IsWhitespace(s[p]) {
      SkipsOverWhitespace(s, p + 1);
    }
  }

  lemma SkipKeepsBounded(s: string, p: nat)
    requires p <= |s| && Bounded(s, p)
    ensures Bounded(s, SkipWhitespace(s, p))
  {
    SkipsOverWhitespace(s, p);
  }

  lemma {:induction false} TrimEndIsPrefix(t: string)
    ensures TrimEnd(t) <= t && AllWhitespace(t[|TrimEnd(t)|..])
    decreases |t|
  {
    if t != "" && IsWhitespace(t[|t| - 1]) {
      var rest := t[..|t| - 1];
      TrimEndIsPrefix(rest);
      assert t[|TrimEnd(rest)|..] == rest[|TrimEnd(rest)|..] + [t[|t| - 1]];
    }
  }

  lemma {:induction false} PhraseHasNoOperator(s: string, p: nat, allow: bool, j: nat)
    requires p <= |s| && p <= j < PhraseEnd(s, p, allow)
    ensures !AnyOperatorAt(s, j)
    decreases j - p
  {
    if p < j {
      PhraseHasNoOperator(s, p + 1, allow, j);
    }
  }

  lemma {:induction false} PhraseEndsAt(s: string, p: nat, allow: bool)
    requires p <= |s|
    ensures
      var end := PhraseEnd(s, p, allow);
      end == |s| || s[end] == ')' || AnyOperatorAt(s, end)
    decreases |s| - p
  {
    if PhraseEnd(s, p, allow) != p {
      PhraseEndsAt(s, p + 1, allow);
    }
  }

  /** The keyword of a phrase is what stands at its start, followed by whitespace only. */
  ghost predicate IsPhrase(s: string, p: nat, kw: string, end: nat) {
    && p + |kw| <= end <= |s| && kw != "" && StartsWith(s, p, kw)
    && (forall j :: p + |kw| <= j < end ==> IsWhitespace(s[j]))
    && (end == |s| || s[end] == ')' || AnyOperatorAt(s, end))
  }

  lemma PhraseShape(s: string, p: nat, allow: bool)
    requires p < |s| && !IsWhitespace(s[p]) && ParseKeywordPhrase(s, p, allow).Ok?
    ensures IsPhrase(s, p, ParseKeywordPhrase(s, p, allow).value.0.keyword, PhraseEnd(s, p, allow))
  {
    var end := PhraseEnd(s, p, allow);
    PhraseEndsAt(s, p, allow);
    var phrase := s[p..end];
    assert s[p..p] == "";
    assert TrimStart(phrase) == phrase;
    TrimEndIsPrefix(phrase);
    PhraseParts(s, p, end, TrimEnd(phrase));
  }

  lemma PhraseParts(s: string, p: nat, end: nat, kw: string)
    requires p <= end <= |s| && kw <= s[p..end] && AllWhitespace(s[p..end][|kw|..])
    ensures StartsWith(s, p, kw)
    ensures forall j :: p + |kw| <= j < end ==> IsWhitespace(s[j])
  {
    assert s[p..p + |kw|] == s[p..end][..|kw|];
    forall j | p + |kw| <= j < end ensures IsWhitespace(s[j]) {
      assert s[p..end][|kw|..][j - p - |kw|] == s[j];
    }
  }

  /** Nothing of an operator is a boundary. */
  lemma OperatorHasNoBoundary(s: string, p: nat, op: string)
    requires StartsWith(s, p, op) && Letters(op)
    ensures !IsOperatorBoundary(s[p]) && !IsOperatorBoundary(s[p + |op| - 1])
  {
    CharStands(s, p, op, 0);
    CharStands(s, p, op, |op| - 1);
  }

  /** An operator that stood alone in a phrase's keyword would stand alone in the input. */
  lemma OperatorMovesOut(s: string, p: nat, kw: string, end: nat, i: nat, op: string)
    requires IsPhrase(s, p, kw, end) && Bounded(s, p) && Letters(op) && MatchesOperatorAt(kw, i, op)
    ensures MatchesOperatorAt(s, p + i, op)
  {
    assert kw[i..i + |op|] == op;
    PartStands(s, p, kw, i, op);
    forall j | 0 <= j < |kw| ensures kw[j] == s[p + j] {
      CharStands(s, p, kw, j);
    }
    OperatorHasNoBoundary(s, p + i, op);
  }

  lemma PhraseIsClean(s: string, p: nat, allow: bool)
    requires p < |s| && !IsWhitespace(s[p]) && Bounded(s, p) && ParseKeywordPhrase(s, p, allow).Ok?
    ensures Clean(ParseKeywordPhrase(s, p, allow).value.0.keyword)
  {
    var kw, end := ParseKeywordPhrase(s, p, allow).value.0.keyword, PhraseEnd(s, p, allow);
    PhraseShape(s, p, allow);
    forall i: nat | i < |kw| ensures !AnyOperatorAt(kw, i) {
      PhraseHasNoOperator(s, p, allow, p + i);
      NoOperatorMovesOut(s, p, kw, end, i);
    }
  }

  lemma NoOperatorMovesOut(s: string, p: nat, kw: string, end: nat, i: nat)
    requires IsPhrase(s, p, kw, end) && Bounded(s, p)
    ensures AnyOperatorAt(kw, i) ==> AnyOperatorAt(s, p + i)
  {
    if MatchesOperatorAt(kw, i, "AND") {
      OperatorMovesOut(s, p, kw, end, i, "AND");
    }
    if MatchesOperatorAt(kw, i, "OR") {
      OperatorMovesOut(s, p, kw, end, i, "OR");
    }
    if MatchesOperatorAt(kw, i, "NOT") {
      OperatorMovesOut(s, p, kw, end, i, "NOT");
    }
  }

  lemma {:induction false} ExpressionIsClean(s: string, pos: nat, allow: bool)
    requires pos <= |s| && Bounded(s, pos)
    ensures
      var r := ParseExpression(s, pos, allow);
      r.Ok? ==> CleanKeywords(r.value.0)
    decreases |s| - pos, 5
  {
    TermIsClean(s, pos, allow);
    var left := ParseTerm(s, pos, allow);
    if left.Ok? {
      ExpressionLoopIsClean(s, left.value.1, left.value.0, allow);
    }
  }

  lemma {:induction false} ExpressionLoopIsClean(s: string, pos: nat, left: Expr, allow: bool)
    requires pos <= |s| && CleanKeywords(left)
    ensures
      var r := ExpressionLoop(s, pos, left, allow);
      r.Ok? ==> CleanKeywords(r.value.0)
    decreases |s| - pos, 4
  {
    var p := SkipWhitespace(s, pos);
    if !(allow && PeekIs(s, p, ')')) && MatchesOperatorAt(s, p, "OR") {
      TermIsClean(s, p + 2, allow);
      var right := ParseTerm(s, p + 2, allow);
      if right.Ok? {
        ExpressionLoopIsClean(s, right.value.1, Or(left, right.value.0), allow);
      }
    }
  }

  lemma {:induction false} TermIsClean(s: string, pos: nat, allow: bool)
    requires pos <= |s| && Bounded(s, pos)
    ensures
      var r := ParseTerm(s, pos, allow);
      r.Ok? ==> CleanKeywords(r.value.0)
    decreases |s| - pos, 3
  {
    FactorIsClean(s, pos, allow);
    var left := ParseFactor(s, pos, allow);
    if left.Ok? {
      TermLoopIsClean(s, left.value.1, left.value.0, allow);
    }
  }

  lemma {:induction false} TermLoopIsClean(s: string, pos: nat, left: Expr, allow: bool)
    requires pos <= |s| && CleanKeywords(left)
    ensures
      var r := TermLoop(s, pos, left, allow);
      r.Ok? ==> CleanKeywords(r.value.0)
    decreases |s| - pos, 2
  {
    var p := SkipWhitespace(s, pos);
    if !(allow && PeekIs(s, p, ')')) && MatchesOperatorAt(s, p, "AND") {
      FactorIsClean(s, p + 3, allow);
      var right := ParseFactor(s, p + 3, allow);
      if right.Ok? {
        TermLoopIsClean(s, right.value.1, And(left, right.value.0), allow);
      }
    }
  }

  lemma {:induction false} FactorIsClean(s: string, pos: nat, allow: bool)
    requires pos <= |s| && Bounded(s, pos)
    ensures
      var r := ParseFactor(s, pos, allow);
      r.Ok? ==> CleanKeywords(r.value.0)
    decreases |s| - pos, 1
  {
    var p := SkipWhitespace(s, pos);
    SkipKeepsBounded(s, pos);
    if MatchesOperatorAt(s, p, "NOT") {
      FactorIsClean(s, p + 3, allow);
    } else {
      PrimaryIsClean(s, p, allow);
    }
  }

  lemma {:induction false} PrimaryIsClean(s: string, p: nat, allow: bool)
    requires p <= |s| && Bounded(s, p) && (p < |s| ==> !IsWhitespace(s[p]))
    ensures
      var r := ParsePrimary(s, p, allow);
      r.Ok? ==> CleanKeywords(r.value.0)
    decreases |s| - p, 0
  {
    if LooksLikeGroup(s, p) {
      ExpressionIsClean(s, p + 1, true);
    } else if ParseKeywordPhrase(s, p, allow).Ok? {
      PhraseIsClean(s, p, allow);
    }
  }

  /** Whatever the input, a successful parse holds keywords that are trimmed and hold no operator. */
  lemma ParsedIsClean(s: string)
    ensures Parse(s).Ok? ==> CleanKeywords(Parse(s).value)
  {
    SkipKeepsBounded(s, 0);
    ExpressionIsClean(s, SkipWhitespace(s, 0), false);
  }

  predicate HexKeywords(e: Expr) {
    match e
    case Keyword(kw) => kw != "" && Hex.LowerHex(kw)
    case And(l, r) => HexKeywords(l) && HexKeywords(r)
    case Or(l, r) => HexKeywords(l) && HexKeywords(r)
    case Not(x) => HexKeywords(x)
  }

  lemma HexIsClean(kw: string)
    requires kw != "" && Hex.LowerHex(kw)
    ensures Clean(kw) && ParenFree(kw)
  {
    assert Hex.IsLowerHexDigit(kw[0]) && Hex.IsLowerHexDigit(kw[|kw| - 1]);
    forall i: nat | i < |kw| ensures !AnyOperatorAt(kw, i) {
      assert Hex.IsLowerHexDigit(kw[i]);
      NoOperatorAtDigit(kw, i);
    }
  }

  lemma NoOperatorAtDigit(s: string, i: nat)
    requires i < |s| && !('A' <= s[i] <= 'Z')
    ensures !AnyOperatorAt(s, i)
  {
    assert forall op :: op in {"AND", "OR", "NOT"} && StartsWith(s, i, op) ==> op[0] == s[i..i + |op|][0] == s[i];
  }

  /** In particular every expression over hexadecimal keywords survives printing and parsing. */
  lemma {:induction false} HexRoundTrip(e: Expr)
    requires HexKeywords(e)
    ensures ParenFreeKeywords(e) && Parse(e.ToString()) == Ok(e)
  {
    HexArePrintable(e);
    PrintedParses(e);
  }

  lemma {:induction false} HexArePrintable(e: Expr)
    requires HexKeywords(e)
    ensures Printable(e)
  {
    match e
    case Keyword(kw) => HexIsClean(kw);
    case And(l, r) => HexArePrintable(l); HexArePrintable(r);
    case Or(l, r) => HexArePrintable(l); HexArePrintable(r);
    case Not(x) => HexArePrintable(x);
  }
}
