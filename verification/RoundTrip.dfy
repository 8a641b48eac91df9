/** Exactly which expressions parsing gives back after printing. A wrong reading of a printed expression is
    found out by counting: operators and parentheses lie where the printer put them. */
module RoundTrip {
  import opened Wrappers
  import opened Text
  import opened BooleanExpr
  import opened Grammar
  import opened Printer

  // ----- counting operators and parentheses

  function Ops(s: string, p: nat, q: nat): nat
    decreases q
  {
    if q <= p then 0 else Ops(s, p, q - 1) + if AnyOperatorAt(s, q - 1) then 1 else 0
  }

  function CharBalance(c: char): int {
    if c == '(' then 1 else if c == ')' then -1 else 0
  }

  function Balance(s: string, p: nat, q: nat): int
    requires q <= |s|
    decreases q
  {
    if q <= p then 0 else Balance(s, p, q - 1) + CharBalance(s[q - 1])
  }

  /** So many operators, and so many more parentheses open than close. */
  predicate Weighs(s: string, p: nat, q: nat, ops: nat, balance: int) {
    p <= q <= |s| && Ops(s, p, q) == ops && Balance(s, p, q) == balance
  }

  lemma {:induction false} Join(s: string, p: nat, q: nat, r: nat)
    requires p <= q <= r <= |s|
    ensures Ops(s, p, r) == Ops(s, p, q) + Ops(s, q, r)
    ensures Balance(s, p, r) == Balance(s, p, q) + Balance(s, q, r)
    decreases r
  {
    if q < r {
      Join(s, p, q, r - 1);
    }
  }

  lemma Then(s: string, p: nat, q: nat, r: nat, ops: nat, balance: int, ops': nat, balance': int)
    requires Weighs(s, p, q, ops, balance) && Weighs(s, q, r, ops', balance')
    ensures Weighs(s, p, r, ops + ops', balance + balance')
  {
    Join(s, p, q, r);
  }

  lemma {:induction false} PlainWeighs(s: string, p: nat, q: nat)
    requires p <= q <= |s| && forall i: nat :: p <= i < q ==> CharBalance(s[i]) == 0 && !AnyOperatorAt(s, i)
    ensures Weighs(s, p, q, 0, 0)
    decreases q
  {
    if p < q {
      PlainWeighs(s, p, q - 1);
    }
  }

  lemma OneWeighs(s: string, p: nat)
    requires p < |s| && !('A' <= s[p] <= 'Z')
    ensures Weighs(s, p, p + 1, 0, CharBalance(s[p]))
  {
    NoOperatorAtDigit(s, p);
    assert Ops(s, p, p) == 0 && Balance(s, p, p) == 0;
  }

  lemma {:induction false} BlanksWeigh(s: string, p: nat)
    requires p <= |s|
    ensures Weighs(s, p, SkipWhitespace(s, p), 0, 0)
    decreases |s| - p
  {
    if p < |s| && IsWhitespace(s[p]) {
      OneWeighs(s, p);
      BlanksWeigh(s, p + 1);
      Join(s, p, p + 1, SkipWhitespace(s, p + 1));
    }
  }

  /** The first letter of an operator is one, its other letters are none. */
  lemma OperatorLetters(s: string, p: nat, op: string, j: nat)
    requires op in {"AND", "OR", "NOT"} && MatchesOperatorAt(s, p, op) && j < |op|
    ensures CharBalance(s[p + j]) == 0 && (AnyOperatorAt(s, p + j) <==> j == 0)
  {
    CharStands(s, p, op, j);
    if j > 0 {
      CharStands(s, p, op, j - 1);
    }
  }

  lemma OperatorWeighs(s: string, p: nat, op: string)
    requires op in {"AND", "OR", "NOT"} && MatchesOperatorAt(s, p, op)
    ensures Weighs(s, p, p + |op|, 1, 0)
  {
    assert Weighs(s, p, p + 1, 1, 0) by {
      OperatorLetters(s, p, op, 0);
      assert Ops(s, p, p) == 0 && Balance(s, p, p) == 0;
    }
    forall i: nat | p + 1 <= i < p + |op| ensures CharBalance(s[i]) == 0 && !AnyOperatorAt(s, i) {
      OperatorLetters(s, p, op, i - p);
    }
    PlainWeighs(s, p + 1, p + |op|);
    Then(s, p, p + 1, p + |op|, 1, 0, 0, 0);
  }

  // ----- the same of a tree

  function Nodes(e: Expr): nat {
    match e
    case Keyword(_) => 0
    case And(l, r) => Nodes(l) + 1 + Nodes(r)
    case Or(l, r) => Nodes(l) + 1 + Nodes(r)
    case Not(x) => 1 + Nodes(x)
  }

  /** How many more parentheses the keywords open than close. */
  function Excess(e: Expr): int {
    match e
    case Keyword(kw) => Balance(kw, 0, |kw|)
    case And(l, r) => Excess(l) + Excess(r)
    case Or(l, r) => Excess(l) + Excess(r)
    case Not(x) => Excess(x)
  }

  predicate CloseFree(kw: string) {
    forall i :: 0 <= i < |kw| ==> kw[i] != ')'
  }

  predicate NoCloses(e: Expr) {
    match e
    case Keyword(kw) => CloseFree(kw)
    case And(l, r) => NoCloses(l) && NoCloses(r)
    case Or(l, r) => NoCloses(l) && NoCloses(r)
    case Not(x) => NoCloses(x)
  }

  predicate Spans(s: string, p: nat, q: nat, e: Expr) {
    Weighs(s, p, q, Nodes(e), Excess(e))
  }

  /** The tree weighs as much as the text, and inside a group no keyword closes a parenthesis. */
  predicate Reading(s: string, p: nat, q: nat, e: Expr, allow: bool) {
    Spans(s, p, q, e) && (allow ==> NoCloses(e))
  }

  /** The operator of the tree is one at `t`, with its left operand parsed from what stands before. */
  ghost predicate DividesAt(s: string, from: nat, t: nat, e: Expr) {
    (e.And? || e.Or?) && from <= t && AnyOperatorAt(s, t) && Spans(s, from, t, e.left)
  }

  ghost predicate Divided(s: string, from: nat, e: Expr) {
    exists t :: DividesAt(s, from, t, e)
  }

  // ----- what is parsed weighs as much as the text it is parsed from

  lemma {:induction false} SameBalance(s: string, p: nat, t: string, n: nat)
    requires StartsWith(s, p, t) && n <= |t|
    ensures Balance(s, p, p + n) == Balance(t, 0, n)
    decreases n
  {
    if n > 0 {
      SameBalance(s, p, t, n - 1);
      CharStands(s, p, t, n - 1);
    }
  }

  lemma {:induction false} NoClosesInPhrase(s: string, p: nat, j: nat)
    requires p <= |s| && p <= j < PhraseEnd(s, p, true)
    ensures s[j] != ')'
    decreases j - p
  {
    if p < j {
      NoClosesInPhrase(s, p + 1, j);
    }
  }

  lemma {:induction false} NoOpsWeighs(s: string, p: nat, q: nat)
    requires p <= q && forall i: nat :: p <= i < q ==> !AnyOperatorAt(s, i)
    ensures Ops(s, p, q) == 0
    decreases q
  {
    if p < q {
      NoOpsWeighs(s, p, q - 1);
    }
  }

  lemma PhraseWeighs(s: string, p: nat, allow: bool, kw: string, end: nat)
    requires p <= |s| && end == PhraseEnd(s, p, allow) && IsPhrase(s, p, kw, end)
    ensures Weighs(s, p, end, 0, Balance(kw, 0, |kw|))
  {
    assert Ops(s, p, end) == 0 by {
      forall i: nat | p <= i < end ensures !AnyOperatorAt(s, i) {
        PhraseHasNoOperator(s, p, allow, i);
      }
      NoOpsWeighs(s, p, end);
    }
    PhraseBalance(s, p, kw, end);
  }

  lemma PhraseBalance(s: string, p: nat, kw: string, end: nat)
    requires StartsWith(s, p, kw) && p + |kw| <= end <= |s| && forall j :: p + |kw| <= j < end ==> IsWhitespace(s[j])
    ensures Balance(s, p, end) == Balance(kw, 0, |kw|)
  {
    SameBalance(s, p, kw, |kw|);
    BlankBalance(s, p + |kw|, end);
    Join(s, p, p + |kw|, end);
  }

  lemma {:induction false} BlankBalance(s: string, p: nat, q: nat)
    requires p <= q <= |s| && forall j :: p <= j < q ==> IsWhitespace(s[j])
    ensures Balance(s, p, q) == 0
    decreases q
  {
    if p < q {
      BlankBalance(s, p, q - 1);
    }
  }

  lemma PhraseSpans(s: string, p: nat, allow: bool)
    requires p < |s| && !IsWhitespace(s[p]) && ParseKeywordPhrase(s, p, allow).Ok?
    ensures
      var (e, q) := ParseKeywordPhrase(s, p, allow).value;
      Reading(s, p, q, e, allow)
  {
    var (e, end) := ParseKeywordPhrase(s, p, allow).value;
    var kw := e.keyword;
    PhraseShape(s, p, allow);
    PhraseWeighs(s, p, allow, kw, end);
    if allow {
      forall i: nat | i < |kw| ensures kw[i] != ')' {
        CharStands(s, p, kw, i);
        NoClosesInPhrase(s, p, p + i);
      }
    }
  }

  lemma TrailingBlanks(s: string, from: nat, pos: nat, e: Expr, allow: bool)
    requires Reading(s, from, pos, e, allow)
    ensures Reading(s, from, SkipWhitespace(s, pos), e, allow)
  {
    BlanksWeigh(s, pos);
    Then(s, from, pos, SkipWhitespace(s, pos), Nodes(e), Excess(e), 0, 0);
  }

  /** A left operand, blanks, an operator and a right operand. */
  lemma BinaryReading(s: string, from: nat, pos: nat, e: Expr, op: string, q: nat, allow: bool)
    requires (e.And? && op == "AND") || (e.Or? && op == "OR")
    requires Reading(s, from, pos, e.left, allow) && MatchesOperatorAt(s, SkipWhitespace(s, pos), op)
    requires Reading(s, SkipWhitespace(s, pos) + |op|, q, e.right, allow)
    ensures Reading(s, from, q, e, allow) && Divided(s, from, e)
  {
    var p := SkipWhitespace(s, pos);
    TrailingBlanks(s, from, pos, e.left, allow);
    assert DividesAt(s, from, p, e);
    OperatorWeighs(s, p, op);
    Then(s, from, p, p + |op|, Nodes(e.left), Excess(e.left), 1, 0);
    Then(s, from, p + |op|, q, Nodes(e.left) + 1, Excess(e.left), Nodes(e.right), Excess(e.right));
  }

  lemma LeadingBlanks(s: string, pos: nat, q: nat, e: Expr, allow: bool)
    requires pos <= |s| && Reading(s, SkipWhitespace(s, pos), q, e, allow)
    ensures Reading(s, pos, q, e, allow)
  {
    BlanksWeigh(s, pos);
    Then(s, pos, SkipWhitespace(s, pos), q, 0, 0, Nodes(e), Excess(e));
  }

  lemma NotReading(s: string, p: nat, e: Expr, q: nat, allow: bool)
    requires MatchesOperatorAt(s, p, "NOT") && Reading(s, p + 3, q, e, allow)
    ensures Reading(s, p, q, Not(e), allow)
  {
    OperatorWeighs(s, p, "NOT");
    Then(s, p, p + 3, q, 1, 0, Nodes(e), Excess(e));
  }

  lemma GroupSpans(s: string, p: nat, e: Expr, q: nat)
    requires PeekIs(s, p, '(') && Spans(s, p + 1, q, e) && PeekIs(s, SkipWhitespace(s, q), ')')
    ensures Spans(s, p, SkipWhitespace(s, q) + 1, e)
  {
    var close := SkipWhitespace(s, q);
    TrailingBlanks(s, p + 1, q, e, false);
    OneWeighs(s, p);
    OneWeighs(s, close);
    Then(s, p, p + 1, close, 0, 1, Nodes(e), Excess(e));
    Then(s, p, close, close + 1, Nodes(e), Excess(e) + 1, 0, -1);
  }

  lemma {:induction false} ExpressionSpans(s: string, pos: nat, allow: bool)
    requires pos <= |s| && ParseExpression(s, pos, allow).Ok?
    ensures
      var (e, q) := ParseExpression(s, pos, allow).value;
      Reading(s, pos, q, e, allow)
    decreases |s| - pos, 5
  {
    TermSpans(s, pos, allow);
    var (left, p) := ParseTerm(s, pos, allow).value;
    ExpressionLoopSpans(s, pos, p, left, allow);
  }

  /** Whether the loop goes round once more. */
  predicate ExpressionLoopGoesOn(s: string, pos: nat, allow: bool)
    requires pos <= |s|
  {
    var p := SkipWhitespace(s, pos);
    !(allow && PeekIs(s, p, ')')) && MatchesOperatorAt(s, p, "OR")
  }

  lemma {:induction false} ExpressionLoopStep(s: string, from: nat, pos: nat, left: Expr, allow: bool) returns (e: Expr, q: nat)
    requires from < pos <= |s| && Reading(s, from, pos, left, allow) && ExpressionLoop(s, pos, left, allow).Ok?
    requires ExpressionLoopGoesOn(s, pos, allow)
    ensures pos < q <= |s| && Reading(s, from, q, e, allow) && Divided(s, from, e)
    ensures ExpressionLoop(s, pos, left, allow) == ExpressionLoop(s, q, e, allow)
    decreases |s| - pos, 4, 0
  {
    var p := SkipWhitespace(s, pos);
    TermSpans(s, p + 2, allow);
    var (right, end) := ParseTerm(s, p + 2, allow).value;
    e, q := Or(left, right), end;
    BinaryReading(s, from, pos, e, "OR", q, allow);
  }

  lemma {:induction false} ExpressionLoopSpans(s: string, from: nat, pos: nat, left: Expr, allow: bool)
    requires from < pos <= |s| && Reading(s, from, pos, left, allow) && ExpressionLoop(s, pos, left, allow).Ok?
    ensures
      var (e, q) := ExpressionLoop(s, pos, left, allow).value;
      Reading(s, from, q, e, allow) && (e == left || Divided(s, from, e))
    decreases |s| - pos, 4, 1
  {
    if ExpressionLoopGoesOn(s, pos, allow) {
      var e, q := ExpressionLoopStep(s, from, pos, left, allow);
      ExpressionLoopSpans(s, from, q, e, allow);
    } else {
      TrailingBlanks(s, from, pos, left, allow);
    }
  }

  lemma {:induction false} TermSpans(s: string, pos: nat, allow: bool)
    requires pos <= |s| && ParseTerm(s, pos, allow).Ok?
    ensures
      var (e, q) := ParseTerm(s, pos, allow).value;
      Reading(s, pos, q, e, allow)
    decreases |s| - pos, 3
  {
    FactorSpans(s, pos, allow);
    var (left, p) := ParseFactor(s, pos, allow).value;
    TermLoopSpans(s, pos, p, left, allow);
  }

  /** Whether the loop goes round once more. */
  predicate TermLoopGoesOn(s: string, pos: nat, allow: bool)
    requires pos <= |s|
  {
    var p := SkipWhitespace(s, pos);
    !(allow && PeekIs(s, p, ')')) && MatchesOperatorAt(s, p, "AND")
  }

  lemma {:induction false} TermLoopStep(s: string, from: nat, pos: nat, left: Expr, allow: bool) returns (e: Expr, q: nat)
    requires from < pos <= |s| && Reading(s, from, pos, left, allow) && TermLoop(s, pos, left, allow).Ok?
    requires TermLoopGoesOn(s, pos, allow)
    ensures pos < q <= |s| && Reading(s, from, q, e, allow) && Divided(s, from, e)
    ensures TermLoop(s, pos, left, allow) == TermLoop(s, q, e, allow)
    decreases |s| - pos, 2, 0
  {
    var p := SkipWhitespace(s, pos);
    FactorSpans(s, p + 3, allow);
    var (right, end) := ParseFactor(s, p + 3, allow).value;
    e, q := And(left, right), end;
    BinaryReading(s, from, pos, e, "AND", q, allow);
  }

  lemma {:induction false} TermLoopSpans(s: string, from: nat, pos: nat, left: Expr, allow: bool)
    requires from < pos <= |s| && Reading(s, from, pos, left, allow) && TermLoop(s, pos, left, allow).Ok?
    ensures
      var (e, q) := TermLoop(s, pos, left, allow).value;
      Reading(s, from, q, e, allow) && (e == left || Divided(s, from, e))
    decreases |s| - pos, 2, 1
  {
    if TermLoopGoesOn(s, pos, allow) {
      var e, q := TermLoopStep(s, from, pos, left, allow);
      TermLoopSpans(s, from, q, e, allow);
    } else {
      TrailingBlanks(s, from, pos, left, allow);
    }
  }

  lemma {:induction false} FactorSpans(s: string, pos: nat, allow: bool)
    requires pos <= |s| && ParseFactor(s, pos, allow).Ok?
    ensures
      var (e, q) := ParseFactor(s, pos, allow).value;
      Reading(s, pos, q, e, allow)
    decreases |s| - pos, 1
  {
    var p := SkipWhitespace(s, pos);
    var (e, q) := ParseFactor(s, pos, allow).value;
    if MatchesOperatorAt(s, p, "NOT") {
      FactorSpans(s, p + 3, allow);
      NotReading(s, p, e.operand, q, allow);
    } else {
      PrimarySpans(s, p, allow);
    }
    LeadingBlanks(s, pos, q, e, allow);
  }

  lemma {:induction false} PrimarySpans(s: string, p: nat, allow: bool)
    requires p <= |s| && ParsePrimary(s, p, allow).Ok? && (p < |s| ==> !IsWhitespace(s[p]))
    ensures
      var (e, q) := ParsePrimary(s, p, allow).value;
      Reading(s, p, q, e, allow) && (LooksLikeGroup(s, p) ==> NoCloses(e))
    decreases |s| - p, 0
  {
    if LooksLikeGroup(s, p) {
      ExpressionSpans(s, p + 1, true);
      var (e, q) := ParseExpression(s, p + 1, true).value;
      GroupSpans(s, p, e, q);
    } else {
      PhraseSpans(s, p, allow);
    }
  }

  /** A parsed expression is its first factor, or its operator divides the input outside any group. */
  lemma ExpressionDivides(s: string, pos: nat, allow: bool)
    requires pos <= |s| && ParseExpression(s, pos, allow).Ok?
    ensures ParseFactor(s, pos, allow).Ok?
    ensures
      var e := ParseExpression(s, pos, allow).value.0;
      e == ParseFactor(s, pos, allow).value.0 || Divided(s, pos, e)
  {
    FactorSpans(s, pos, allow);
    var (factor, p) := ParseFactor(s, pos, allow).value;
    TermLoopSpans(s, pos, p, factor, allow);
    var (term, q) := ParseTerm(s, pos, allow).value;
    ExpressionLoopSpans(s, pos, q, term, allow);
  }

  // ----- what is printed weighs as much as the tree

  lemma KeywordSpans(s: string, p: nat, kw: string, allow: bool)
    requires StartsWith(s, p, kw) && Follow(s, p + |kw|, allow) && Clean(kw)
    ensures Spans(s, p, p + |kw|, Keyword(kw))
  {
    forall i: nat | p <= i < p + |kw| ensures !AnyOperatorAt(s, i) {
      NothingInside(s, p, kw, allow, i - p);
    }
    NoOpsWeighs(s, p, p + |kw|);
    SameBalance(s, p, kw, |kw|);
  }

  lemma MiddleWeighs(s: string, b: nat, op: string)
    requires op in {"AND", "OR"} && StartsWith(s, b, " " + op + " ")
    ensures AnyOperatorAt(s, b + 1) && Weighs(s, b, b + 1, 0, 0) && Weighs(s, b, b + 2 + |op|, 1, 0)
    ensures Follow(s, b, true)
  {
    OperatorStands(s, b, op);
    OneWeighs(s, b);
    OperatorWeighs(s, b + 1, op);
    OneWeighs(s, b + 1 + |op|);
    Then(s, b, b + 1, b + 1 + |op|, 0, 0, 1, 0);
    Then(s, b, b + 1 + |op|, b + 2 + |op|, 1, 0, 0, 0);
  }

  lemma NotWeighs(s: string, p: nat)
    requires PeekIs(s, p, '(') && StartsWith(s, p + 1, "NOT ")
    ensures Weighs(s, p, p + 5, 1, 1)
  {
    PartStands(s, p + 1, "NOT ", 0, "NOT");
    CharStands(s, p + 1, "NOT ", 3);
    OneWeighs(s, p);
    OperatorWeighs(s, p + 1, "NOT");
    OneWeighs(s, p + 4);
    Then(s, p, p + 1, p + 4, 0, 1, 1, 0);
    Then(s, p, p + 4, p + 5, 1, 1, 0, 0);
  }

  lemma {:induction false} PrintedSpans(s: string, p: nat, e: Expr, allow: bool)
    requires StartsWith(s, p, e.ToString()) && Follow(s, p + |e.ToString()|, allow) && CleanKeywords(e)
    ensures Spans(s, p, p + |e.ToString()|, e)
    decreases e, 3
  {
    if e.Keyword? {
      KeywordSpans(s, p, e.keyword, allow);
    } else {
      CompositeSpans(s, p, e);
    }
  }

  lemma {:induction false} CompositeSpans(s: string, p: nat, e: Expr)
    requires StartsWith(s, p, e.ToString()) && CleanKeywords(e) && !e.Keyword?
    ensures Spans(s, p, p + |e.ToString()|, e)
    decreases e, 2
  {
    var right, len := Right(e).ToString(), |e.ToString()|;
    assert Group(s, p, Left(e), Middle(e), right) && len == 2 + |Left(e)| + |Middle(e)| + |right| by {
      PrintedIsGroup(s, p, e);
    }
    GroupTextSpans(s, p, e, right);
  }

  lemma Closed(s: string, p: nat, r: nat, close: nat, ops: nat, balance: int, x: Expr)
    requires Weighs(s, p, r, ops, balance + 1) && Spans(s, r, close, x) && PeekIs(s, close, ')')
    ensures Weighs(s, p, close + 1, ops + Nodes(x), balance + Excess(x))
  {
    Then(s, p, r, close, ops, balance + 1, Nodes(x), Excess(x));
    OneWeighs(s, close);
    Then(s, p, close, close + 1, ops + Nodes(x), balance + 1 + Excess(x), 0, -1);
  }

  lemma Opened(s: string, p: nat, m: nat, l: Expr, op: string)
    requires PeekIs(s, p, '(') && Spans(s, p + 1, m, l) && op in {"AND", "OR"} && StartsWith(s, m, " " + op + " ")
    ensures Weighs(s, p, m + 1, Nodes(l), Excess(l) + 1) && AnyOperatorAt(s, m + 1)
    ensures Weighs(s, p, m + 2 + |op|, Nodes(l) + 1, Excess(l) + 1)
  {
    MiddleWeighs(s, m, op);
    OneWeighs(s, p);
    Then(s, p, p + 1, m, 0, 1, Nodes(l), Excess(l));
    Then(s, p, m, m + 1, Nodes(l), Excess(l) + 1, 0, 0);
    Then(s, p, m, m + 2 + |op|, Nodes(l), Excess(l) + 1, 1, 0);
  }

  lemma {:induction false} GroupTextSpans(s: string, p: nat, e: Expr, right: string)
    requires !e.Keyword? && CleanKeywords(e) && right == Right(e).ToString() && Group(s, p, Left(e), Middle(e), right)
    ensures Spans(s, p, p + 2 + |Left(e)| + |Middle(e)| + |right|, e)
    decreases e, 1
  {
    var r := p + 1 + |Left(e)| + |Middle(e)|;
    var x := Right(e);
    LeftSpans(s, p, e, right);
    FollowsClose(s, r + |right|);
    PrintedSpans(s, r, x, true);
    Closed(s, p, r, r + |right|, Nodes(e) - Nodes(x), Excess(e) - Excess(x), x);
  }

  /** What stands in front of the last operand of a printed group. */
  lemma {:induction false} LeftSpans(s: string, p: nat, e: Expr, right: string)
    requires !e.Keyword? && CleanKeywords(e) && Group(s, p, Left(e), Middle(e), right)
    ensures
      var m := p + 1 + |Left(e)|;
      && Weighs(s, p, m + |Middle(e)|, Nodes(e) - Nodes(Right(e)), Excess(e) - Excess(Right(e)) + 1)
      && (!e.Not? ==> Weighs(s, p, m + 1, Nodes(e.left), Excess(e.left) + 1) && AnyOperatorAt(s, m + 1))
    decreases e, 0
  {
    var m := p + 1 + |Left(e)|;
    if e.Not? {
      NotWeighs(s, p);
    } else {
      var op := if e.And? then "AND" else "OR";
      MiddleWeighs(s, m, op);
      PrintedSpans(s, p + 1, e.left, true);
      Opened(s, p, m, e.left, op);
    }
  }

  // ----- prefixes of a printed expression without closing parentheses in keywords

  predicate Rises(s: string, p: nat, q: nat) {
    p <= q <= |s| && forall j: nat :: p <= j <= q ==> Balance(s, p, j) >= 0
  }

  lemma RisesJoin(s: string, p: nat, q: nat, r: nat)
    requires Rises(s, p, q) && Rises(s, q, r)
    ensures Rises(s, p, r)
  {
    forall j: nat | p <= j <= r ensures Balance(s, p, j) >= 0 {
      if q <= j {
        Join(s, p, q, j);
      }
    }
  }

  lemma {:induction false} CloseFreeRises(s: string, p: nat, t: string, n: nat)
    requires StartsWith(s, p, t) && CloseFree(t) && n <= |t|
    ensures Rises(s, p, p + n) && (Balance(s, p, p + n) == 0 ==> forall i :: 0 <= i < n ==> t[i] != '(')
    decreases n
  {
    if n > 0 {
      CloseFreeRises(s, p, t, n - 1);
      CharStands(s, p, t, n - 1);
    }
  }

  lemma {:induction false} PrintedRises(s: string, p: nat, e: Expr)
    requires StartsWith(s, p, e.ToString()) && NoCloses(e)
    ensures Rises(s, p, p + |e.ToString()|)
    ensures !e.Keyword? ==> forall j: nat :: p < j < p + |e.ToString()| ==> Balance(s, p, j) > 0
    decreases e, 1
  {
    if e.Keyword? {
      CloseFreeRises(s, p, e.keyword, |e.keyword|);
    } else {
      PrintedIsGroup(s, p, e);
      var close := p + |e.ToString()| - 1;
      InsideRises(s, p, e);
      assert Balance(s, p, p) == 0 && Balance(s, p, p + 1) == 1;
      forall j: nat | p < j <= close ensures Balance(s, p, j) > 0 {
        Join(s, p, p + 1, j);
      }
      Join(s, p, close, close + 1);
    }
  }

  lemma {:induction false} InsideRises(s: string, p: nat, e: Expr)
    requires !e.Keyword? && NoCloses(e) && Group(s, p, Left(e), Middle(e), Right(e).ToString())
    ensures Rises(s, p + 1, p + 1 + |Left(e)| + |Middle(e)| + |Right(e).ToString()|)
    decreases e, 0
  {
    var m := p + 1 + |Left(e)|;
    var r := m + |Middle(e)|;
    if e.Not? {
      CloseFreeRises(s, p + 1, "NOT ", 4);
    } else {
      PrintedRises(s, p + 1, e.left);
    }
    CloseFreeRises(s, m, Middle(e), |Middle(e)|);
    PrintedRises(s, r, Right(e));
    RisesJoin(s, p + 1, m, r);
    RisesJoin(s, p + 1, r, r + |Right(e).ToString()|);
  }

  lemma {:induction false} ParenFreeIfBalanced(e: Expr)
    requires NoCloses(e)
    ensures Excess(e) >= 0 && (Excess(e) == 0 ==> ParenFreeKeywords(e))
  {
    match e
    case Keyword(kw) =>
      assert kw[0..|kw|] == kw;
      CloseFreeRises(kw, 0, kw, |kw|);
    case And(l, r) => ParenFreeIfBalanced(l); ParenFreeIfBalanced(r);
    case Or(l, r) => ParenFreeIfBalanced(l); ParenFreeIfBalanced(r);
    case Not(x) => ParenFreeIfBalanced(x);
  }

  lemma {:induction false} MatchingIsBalanced(s: string, i: nat, depth: nat)
    requires i <= |s| && depth > 0 && FindMatchingParen(s, i, depth).Some?
    ensures depth + Balance(s, i, FindMatchingParen(s, i, depth).value + 1) == 0
    decreases |s| - i
  {
    var m := FindMatchingParen(s, i, depth).value;
    assert Balance(s, i, i) == 0 && Balance(s, i, i + 1) == CharBalance(s[i]);
    if !(s[i] == ')' && depth == 1) {
      MatchingIsBalanced(s, i + 1, if s[i] == '(' then depth + 1 else if s[i] == ')' then depth - 1 else depth);
      Join(s, i, i + 1, m + 1);
    }
  }

  // ----- the theorem

  lemma {:induction false} SameOperator(s: string, t: nat, t': nat)
    requires AnyOperatorAt(s, t) && AnyOperatorAt(s, t') && t <= |s| && t' <= |s| && Ops(s, 0, t) == Ops(s, 0, t')
    ensures t == t'
  {
    if t < t' {
      Join(s, 0, t, t');
      OpsGrow(s, t, t');
    } else if t' < t {
      Join(s, 0, t', t);
      OpsGrow(s, t', t);
    }
  }

  lemma {:induction false} OpsGrow(s: string, t: nat, q: nat)
    requires AnyOperatorAt(s, t) && t < q
    ensures Ops(s, t, q) > 0
    decreases q
  {
    if t < q - 1 {
      OpsGrow(s, t, q - 1);
    }
  }

  /** An operator outside any group is not where the printer put the tree's own. */
  lemma NotDivided(s: string, e: Expr, right: string, t: nat)
    requires !e.Keyword? && CleanKeywords(e) && Group(s, 0, Left(e), Middle(e), right)
    ensures !DividesAt(s, 0, t, e)
  {
    if DividesAt(s, 0, t, e) {
      LeftSpans(s, 0, e, right);
      SameOperator(s, t, 2 + |Left(e)|);
    }
  }

  lemma GroupIsPrimary(s: string)
    requires s != "" && s[0] == '('
    ensures SkipWhitespace(s, 0) == 0 && ParseFactor(s, 0, false) == ParsePrimary(s, 0, false)
  {
    NoOperatorAtDigit(s, 0);
  }

  /** A printed group that is read back has been read as one group. */
  lemma ReadAsGroup(s: string, e: Expr)
    requires s == e.ToString() && !e.Keyword? && CleanKeywords(e) && Parse(s) == Ok(e)
    ensures LooksLikeGroup(s, 0) && NoCloses(e)
  {
    assert s[0..|s|] == s;
    PrintedIsGroup(s, 0, e);
    GroupIsPrimary(s);
    ExpressionDivides(s, 0, false);
    forall t ensures !DividesAt(s, 0, t, e) {
      NotDivided(s, e, Right(e).ToString(), t);
    }
    PrimarySpans(s, 0, false);
  }

  lemma MatchOfFirst(s: string)
    requires PeekIs(s, 0, '(') && FindMatchingParen(s, 0, 0).Some?
    ensures var m := FindMatchingParen(s, 0, 0).value; m < |s| && Balance(s, 0, m + 1) == 0
  {
    var m := FindMatchingParen(s, 0, 0).value;
    ParenOpens(s, 0, 0);
    MatchingIsBalanced(s, 1, 1);
    assert Balance(s, 0, 0) == 0 && Balance(s, 0, 1) == 1;
    Join(s, 0, 1, m + 1);
  }

  /** In a printed expression that is read back, no keyword of a group holds a parenthesis. */
  lemma GroupsAreParenFree(s: string, e: Expr)
    requires s == e.ToString() && !e.Keyword? && CleanKeywords(e) && Parse(s) == Ok(e)
    ensures ParenFreeKeywords(e)
  {
    assert s[0..|s|] == s;
    ReadAsGroup(s, e);
    MatchOfFirst(s);
    assert FindMatchingParen(s, 0, 0).value + 1 == |s| by {
      PrintedRises(s, 0, e);
    }
    PrintedSpans(s, 0, e, false);
    ParenFreeIfBalanced(e);
  }

  lemma {:induction false} MatchIsClose(s: string, i: nat, depth: nat)
    requires FindMatchingParen(s, i, depth).Some?
    ensures s[FindMatchingParen(s, i, depth).value] == ')'
    decreases |s| - i
  {
    if s[i] == '(' {
      MatchIsClose(s, i + 1, depth + 1);
    } else if s[i] != ')' {
      MatchIsClose(s, i + 1, depth);
    } else if depth > 1 {
      MatchIsClose(s, i + 1, depth - 1);
    }
  }

  lemma {:induction false} OperatorOfGroup(s: string, start: nat, end: nat, from: nat)
    requires 0 < start <= from <= end < |s| && IsOperatorBoundary(s[start - 1]) && IsOperatorBoundary(s[end])
    requires ContainsOperatorFrom(s, start, end, from)
    ensures exists i: nat :: i < |s| && AnyOperatorAt(s, i)
    decreases end - from
  {
    if !IsOperatorBoundary(s[from]) && AnyOperatorWithin(s, start, end, from) {
      forall op | op in {"AND", "OR", "NOT"} && OperatorWithin(s, start, end, from, op) ensures MatchesOperatorAt(s, from, op) {
        assert s[..end][from..from + |op|] == s[from..from + |op|];
      }
      assert AnyOperatorAt(s, from);
    } else {
      OperatorOfGroup(s, start, end, from + 1);
    }
  }

  lemma {:induction false} PhraseTakesAll(s: string, p: nat)
    requires OperatorFree(s) && p <= |s|
    ensures PhraseEnd(s, p, false) == |s|
    decreases |s| - p
  {
    if p < |s| {
      PhraseTakesAll(s, p + 1);
    }
  }

  /** A keyword on its own may hold parentheses. */
  lemma LoneKeywordParses(kw: string)
    requires Clean(kw)
    ensures Parse(kw) == Ok(Keyword(kw))
  {
    if LooksLikeGroup(kw, 0) {
      MatchIsClose(kw, 0, 0);
      OperatorOfGroup(kw, 1, FindMatchingParen(kw, 0, 0).value, 1);
      assert false;
    }
    PhraseTakesAll(kw, 0);
    assert kw[0..|kw|] == kw;
    TrimOfTrimmed(kw);
    assert !AnyOperatorAt(kw, 0);
    assert ParseFactor(kw, 0, false) == ParsePrimary(kw, 0, false) == Ok((Keyword(kw), |kw|));
    ParseOfFactor(kw, Keyword(kw));
  }

  /** Parsing gives back a printed expression if and only if each of its keywords is trimmed, not empty and
      without an operator standing alone in it, and no keyword of a group holds a parenthesis. */
  lemma RoundTripIff(e: Expr)
    ensures Parse(e.ToString()) == Ok(e) <==> CleanKeywords(e) && (e.Keyword? || ParenFreeKeywords(e))
  {
    ParsedIsClean(e.ToString());
    if CleanKeywords(e) {
      if e.Keyword? {
        LoneKeywordParses(e.keyword);
      } else if ParenFreeKeywords(e) {
        PrintedParses(e);
      } else if Parse(e.ToString()) == Ok(e) {
        GroupsAreParenFree(e.ToString(), e);
      }
    }
  }

  lemma NoCapitalIsClean(kw: string)
    requires Trimmed(kw) && forall i :: 0 <= i < |kw| ==> !('A' <= kw[i] <= 'Z')
    ensures Clean(kw)
  {
    forall i: nat | i < |kw| ensures !AnyOperatorAt(kw, i) {
      NoOperatorAtDigit(kw, i);
    }
  }

  /** A keyword with a parenthesis parses on its own, but not back from a printed conjunction. */
  lemma ParenthesesAreCut(kw: string, other: string)
    requires Clean(kw) && Clean(other) && !ParenFree(kw)
    ensures Parse(kw) == Ok(Keyword(kw)) && Parse("(" + kw + " AND " + other + ")") != Ok(And(Keyword(kw), Keyword(other)))
  {
    LoneKeywordParses(kw);
    RoundTripIff(And(Keyword(kw), Keyword(other)));
  }

  lemma ParenthesisedKeywordIsCut()
    ensures Clean("f(x)") && !ParenFree("f(x)") && Clean("y")
    ensures Parse("f(x)") == Ok(Keyword("f(x)")) && Parse("(" + "f(x)" + " AND " + "y" + ")") != Ok(And(Keyword("f(x)"), Keyword("y")))
  {
    NoCapitalIsClean("f(x)");
    NoCapitalIsClean("y");
    assert "f(x)"[1] == '(';
    ParenthesesAreCut("f(x)", "y");
  }
}
