/** The grammar the parser is documented with, over the tokens of a text, and that the parser accepts what the
    grammar derives and nothing else:
      Expression := Term (OR Term)*
      Term := Factor (AND Factor)*
      Factor := NOT Factor | Keyword | '(' Expression ')' */
module Syntax {
  import opened Wrappers
  import opened Text
  import opened BooleanExpr
  import opened Grammar
  import opened Printer

  datatype Token = AndToken | OrToken | NotToken | Open | Close | Word(keyword: string)

  /** The token that begins at a position which is no whitespace, inside so many groups. A parenthesis is one if it
      opens or closes a group. */
  function TokenAt(s: string, p: nat, depth: nat): Token
    requires p < |s|
  {
    if depth > 0 && s[p] == ')' then Close
    else if MatchesOperatorAt(s, p, "AND") then AndToken
    else if MatchesOperatorAt(s, p, "OR") then OrToken
    else if MatchesOperatorAt(s, p, "NOT") then NotToken
    else if LooksLikeGroup(s, p) then Open
    else Word(Trim(s[p..PhraseEnd(s, p, depth > 0)]))
  }

  function EndOfToken(s: string, p: nat, depth: nat): (q: nat)
    requires p < |s|
    ensures p < q <= |s|
  {
    match TokenAt(s, p, depth)
    case Close => p + 1
    case Open => p + 1
    case AndToken => p + 3
    case OrToken => p + 2
    case NotToken => p + 3
    case Word(_) => PhraseEnd(s, p, depth > 0)
  }

  function DepthAfter(token: Token, depth: nat): nat {
    if token.Open? then depth + 1 else if token.Close? && depth > 0 then depth - 1 else depth
  }

  /** A token, where it begins, and inside how many groups. */
  datatype Placed = Placed(token: Token, start: nat, depth: nat)

  /** The tokens from a position on. */
  function Scan(s: string, pos: nat, depth: nat): seq<Placed>
    requires pos <= |s|
    decreases |s| - pos
  {
    var p := SkipWhitespace(s, pos);
    if p == |s| then []
    else
      var token := TokenAt(s, p, depth);
      [Placed(token, p, depth)] + Scan(s, EndOfToken(s, p, depth), DepthAfter(token, depth))
  }

  function Tokens(s: string): seq<Placed> {
    Scan(s, 0, 0)
  }

  // ----- the grammar

  /** The tokens from `i` to before `j` are those of an expression. */
  predicate IsExpression(ts: seq<Placed>, i: nat, j: nat, e: Expr)
    requires i <= j <= |ts|
    decreases j - i, 4
  {
    IsTerm(ts, i, j, e) || (e.Or? && exists k: nat :: k < j && LastOr(ts, i, k, j, e))
  }

  /** The last OR of a disjunction stands at `k`. */
  predicate LastOr(ts: seq<Placed>, i: nat, k: nat, j: nat, e: Expr)
    requires i <= j <= |ts| && e.Or?
    decreases j - i, 3
  {
    i <= k < j && ts[k].token == OrToken && IsExpression(ts, i, k, e.left) && IsTerm(ts, k + 1, j, e.right)
  }

  predicate IsTerm(ts: seq<Placed>, i: nat, j: nat, e: Expr)
    requires i <= j <= |ts|
    decreases j - i, 2
  {
    IsFactor(ts, i, j, e) || (e.And? && exists k: nat :: k < j && LastAnd(ts, i, k, j, e))
  }

  /** The last AND of a conjunction stands at `k`. */
  predicate LastAnd(ts: seq<Placed>, i: nat, k: nat, j: nat, e: Expr)
    requires i <= j <= |ts| && e.And?
    decreases j - i, 1
  {
    i <= k < j && ts[k].token == AndToken && IsTerm(ts, i, k, e.left) && IsFactor(ts, k + 1, j, e.right)
  }

  predicate IsFactor(ts: seq<Placed>, i: nat, j: nat, e: Expr)
    requires i <= j <= |ts|
    decreases j - i, 0
  {
    || (e.Not? && i < j && ts[i].token == NotToken && IsFactor(ts, i + 1, j, e.operand))
    || (e.Keyword? && j == i + 1 && ts[i].token == Word(e.keyword))
    || (i + 2 <= j && ts[i].token == Open && ts[j - 1].token == Close && IsExpression(ts, i + 1, j - 1, e))
  }

  // ----- single tokens

  lemma OperatorsDiffer(s: string, p: nat)
    ensures StartsWith(s, p, "AND") ==> s[p] == 'A'
    ensures StartsWith(s, p, "OR") ==> s[p] == 'O'
    ensures StartsWith(s, p, "NOT") ==> s[p] == 'N'
  {
    forall op | op in {"AND", "OR", "NOT"} && StartsWith(s, p, op) ensures s[p] == op[0] {
      CharStands(s, p, op, 0);
    }
  }

  /** The next token from a position on is the one with index `i`, or there is none left. */
  ghost predicate At(s: string, ts: seq<Placed>, i: nat, pos: nat, depth: nat) {
    && pos <= |s| && i <= |ts|
    && SkipWhitespace(s, pos) == (if i < |ts| then ts[i].start else |s|)
    && (i < |ts| ==> ts[i].depth == depth)
  }

  /** The token with index `i` stands at its place, and the next one follows. */
  ghost predicate Stands(s: string, ts: seq<Placed>, i: nat)
    requires i < |ts|
  {
    var t := ts[i];
    && t.start < |s| && t.token == TokenAt(s, t.start, t.depth)
    && At(s, ts, i + 1, EndOfToken(s, t.start, t.depth), DepthAfter(t.token, t.depth))
  }

  ghost predicate AllStand(s: string, ts: seq<Placed>) {
    forall i: nat :: i < |ts| ==> Stands(s, ts, i)
  }

  lemma {:induction false} ScanStands(s: string, ts: seq<Placed>, i: nat, pos: nat, depth: nat)
    requires pos <= |s| && i <= |ts| && Scan(s, pos, depth) == ts[i..]
    ensures At(s, ts, i, pos, depth) && forall k: nat :: i <= k < |ts| ==> Stands(s, ts, k)
    decreases |s| - pos
  {
    var p := SkipWhitespace(s, pos);
    if p < |s| {
      assert ts[i..][0] == ts[i] && ts[i..][1..] == ts[i + 1..];
      ScanStands(s, ts, i + 1, EndOfToken(s, p, depth), DepthAfter(ts[i].token, depth));
    }
  }

  /** What stands at the first character that is no whitespace decides the next token. */
  lemma NextToken(s: string, ts: seq<Placed>, i: nat, pos: nat, depth: nat)
    requires AllStand(s, ts) && At(s, ts, i, pos, depth)
    ensures
      var p := SkipWhitespace(s, pos);
      && At(s, ts, i, p, depth)
      && (p == |s| <==> i == |ts|)
      && (p < |s| ==>
            ts[i].token == TokenAt(s, p, depth) && At(s, ts, i + 1, EndOfToken(s, p, depth), DepthAfter(ts[i].token, depth)))
  {
    if i < |ts| {
      assert Stands(s, ts, i);
    }
  }

  lemma TokenMeans(s: string, p: nat, depth: nat)
    ensures p >= |s| ==> !AnyOperatorAt(s, p) && !PeekIs(s, p, ')') && !LooksLikeGroup(s, p)
    ensures p < |s| ==>
      var token := TokenAt(s, p, depth);
      && (token.AndToken? <==> MatchesOperatorAt(s, p, "AND"))
      && (token.OrToken? <==> MatchesOperatorAt(s, p, "OR"))
      && (token.NotToken? <==> MatchesOperatorAt(s, p, "NOT"))
      && (token.Close? <==> depth > 0 && PeekIs(s, p, ')'))
      && (token.Open? <==> LooksLikeGroup(s, p))
  {
    OperatorsDiffer(s, p);
  }

  lemma TrimLeavesSome(t: string)
    requires t != "" && !IsWhitespace(t[0])
    ensures Trim(t) != ""
  {
    TrimEndIsPrefix(t);
    assert t[|TrimEnd(t)|..] == t || TrimEnd(t) != "";
  }

  /** A word is what the parser reads as a keyword. */
  lemma WordIsPhrase(s: string, p: nat, depth: nat)
    requires p < |s| && SkipWhitespace(s, p) == p && TokenAt(s, p, depth).Word?
    ensures ParseFactor(s, p, depth > 0) == Ok((Keyword(TokenAt(s, p, depth).keyword), EndOfToken(s, p, depth)))
  {
    TokenMeans(s, p, depth);
    TrimLeavesSome(s[p..PhraseEnd(s, p, depth > 0)]);
  }

  lemma FactorSkips(s: string, pos: nat, allow: bool)
    requires pos <= |s|
    ensures var p := SkipWhitespace(s, pos); SkipWhitespace(s, p) == p && ParseFactor(s, pos, allow) == ParseFactor(s, p, allow)
  {}

  /** How a negation is read. */
  lemma NegationIsFactor(s: string, p: nat, allow: bool)
    requires p <= |s| && SkipWhitespace(s, p) == p && MatchesOperatorAt(s, p, "NOT")
    ensures
      var operand, r := ParseFactor(s, p + 3, allow), ParseFactor(s, p, allow);
      && (r.Ok? <==> operand.Ok?)
      && (r.Ok? ==> r.value == (Not(operand.value.0), operand.value.1))
  {}

  /** How a group is read. */
  lemma GroupIsFactor(s: string, p: nat, allow: bool)
    requires p <= |s| && SkipWhitespace(s, p) == p && LooksLikeGroup(s, p)
    ensures
      var inner, r := ParseExpression(s, p + 1, true), ParseFactor(s, p, allow);
      && (r.Ok? <==> inner.Ok? && PeekIs(s, SkipWhitespace(s, inner.value.1), ')'))
      && (r.Ok? ==> r.value == (inner.value.0, SkipWhitespace(s, inner.value.1) + 1))
  {
    OperatorsDiffer(s, p);
  }

  /** A closing parenthesis inside a group. */
  lemma CloseIsToken(s: string, ts: seq<Placed>, k: nat, q: nat, depth: nat)
    requires AllStand(s, ts) && At(s, ts, k, q, depth + 1)
    ensures PeekIs(s, SkipWhitespace(s, q), ')') <==> k < |ts| && ts[k].token == Close
    ensures k < |ts| && ts[k].token == Close ==> At(s, ts, k + 1, SkipWhitespace(s, q) + 1, depth)
  {
    NextToken(s, ts, k, q, depth + 1);
    TokenMeans(s, SkipWhitespace(s, q), depth + 1);
  }

  /** Where a group ends whose inside has been read up to token `k`. */
  lemma GroupEnds(s: string, ts: seq<Placed>, k: nat, p: nat, depth: nat)
    requires p <= |s| && SkipWhitespace(s, p) == p && LooksLikeGroup(s, p) && ParseExpression(s, p + 1, true).Ok?
    requires AllStand(s, ts) && At(s, ts, k, ParseExpression(s, p + 1, true).value.1, depth + 1)
    ensures
      var e, r := ParseExpression(s, p + 1, true).value.0, ParseFactor(s, p, depth > 0);
      && (r.Ok? <==> k < |ts| && ts[k].token == Close)
      && (r.Ok? ==> r.value.0 == e && At(s, ts, k + 1, r.value.1, depth))
  {
    GroupIsFactor(s, p, depth > 0);
    CloseIsToken(s, ts, k, ParseExpression(s, p + 1, true).value.1, depth);
  }

  lemma OpenIsToken(s: string, ts: seq<Placed>, i: nat, p: nat, depth: nat)
    requires AllStand(s, ts) && At(s, ts, i, p, depth) && SkipWhitespace(s, p) == p
    ensures LooksLikeGroup(s, p) <==> i < |ts| && ts[i].token == Open
    ensures i < |ts| && ts[i].token == Open ==> At(s, ts, i + 1, p + 1, depth + 1)
  {
    NextToken(s, ts, i, p, depth);
    TokenMeans(s, p, depth);
  }

  lemma OperatorIsToken(s: string, ts: seq<Placed>, k: nat, pos: nat, depth: nat)
    requires AllStand(s, ts) && At(s, ts, k, pos, depth)
    ensures
      var p := SkipWhitespace(s, pos);
      && (MatchesOperatorAt(s, p, "AND") <==> k < |ts| && ts[k].token == AndToken)
      && (k < |ts| && ts[k].token == AndToken ==> At(s, ts, k + 1, p + 3, depth))
      && (MatchesOperatorAt(s, p, "OR") <==> k < |ts| && ts[k].token == OrToken)
      && (k < |ts| && ts[k].token == OrToken ==> At(s, ts, k + 1, p + 2, depth))
      && (MatchesOperatorAt(s, p, "NOT") <==> k < |ts| && ts[k].token == NotToken)
      && (k < |ts| && ts[k].token == NotToken ==> At(s, ts, k + 1, p + 3, depth))
      && (depth > 0 && PeekIs(s, p, ')') <==> k < |ts| && ts[k].token == Close)
      && At(s, ts, k, p, depth)
  {
    NextToken(s, ts, k, pos, depth);
    TokenMeans(s, SkipWhitespace(s, pos), depth);
  }

  // ----- what is parsed is derived

  lemma TermOf(ts: seq<Placed>, i: nat, k: nat, j: nat, e: Expr)
    requires i <= k < j <= |ts| && ts[k].token == AndToken && e.And? && IsTerm(ts, i, k, e.left) && IsFactor(ts, k + 1, j, e.right)
    ensures IsTerm(ts, i, j, e)
  {
    assert LastAnd(ts, i, k, j, e);
  }

  lemma ExpressionOf(ts: seq<Placed>, i: nat, k: nat, j: nat, e: Expr)
    requires i <= k < j <= |ts| && ts[k].token == OrToken && e.Or? && IsExpression(ts, i, k, e.left) && IsTerm(ts, k + 1, j, e.right)
    ensures IsExpression(ts, i, j, e)
  {
    assert LastOr(ts, i, k, j, e);
  }

  lemma NegationOf(ts: seq<Placed>, i: nat, j: nat, e: Expr)
    requires i < j <= |ts| && ts[i].token == NotToken && e.Not? && IsFactor(ts, i + 1, j, e.operand)
    ensures IsFactor(ts, i, j, e)
  {}

  lemma WordOf(ts: seq<Placed>, i: nat, e: Expr)
    requires i < |ts| && e.Keyword? && ts[i].token == Word(e.keyword)
    ensures IsFactor(ts, i, i + 1, e)
  {}

  lemma GroupOf(ts: seq<Placed>, i: nat, j: nat, e: Expr)
    requires i + 2 <= j <= |ts| && ts[i].token == Open && ts[j - 1].token == Close && IsExpression(ts, i + 1, j - 1, e)
    ensures IsFactor(ts, i, j, e)
  {}

  lemma {:induction false} ExpressionIsDerived(s: string, ts: seq<Placed>, i: nat, pos: nat, depth: nat) returns (j: nat)
    requires AllStand(s, ts) && At(s, ts, i, pos, depth) && ParseExpression(s, pos, depth > 0).Ok?
    ensures
      var (e, q) := ParseExpression(s, pos, depth > 0).value;
      i <= j && At(s, ts, j, q, depth) && IsExpression(ts, i, j, e)
    decreases |s| - pos, 5
  {
    var k := TermIsDerived(s, ts, i, pos, depth);
    var (left, p) := ParseTerm(s, pos, depth > 0).value;
    j := ExpressionLoopIsDerived(s, ts, i, k, p, left, depth);
  }

  /** Whether the loop over OR goes round once more. */
  predicate OrNext(s: string, pos: nat, allow: bool)
    requires pos <= |s|
  {
    !(allow && PeekIs(s, SkipWhitespace(s, pos), ')')) && MatchesOperatorAt(s, SkipWhitespace(s, pos), "OR")
  }

  lemma ExpressionLoopUnfolds(s: string, pos: nat, left: Expr, allow: bool)
    requires pos <= |s|
    ensures !OrNext(s, pos, allow) ==> ExpressionLoop(s, pos, left, allow) == Ok((left, SkipWhitespace(s, pos)))
    ensures OrNext(s, pos, allow) ==>
      var right := ParseTerm(s, SkipWhitespace(s, pos) + 2, allow);
      && (ExpressionLoop(s, pos, left, allow).Ok? ==> right.Ok?)
      && (right.Ok? ==> ExpressionLoop(s, pos, left, allow) == ExpressionLoop(s, right.value.1, Or(left, right.value.0), allow))
  {}

  lemma OrIsToken(s: string, ts: seq<Placed>, k: nat, pos: nat, depth: nat)
    requires AllStand(s, ts) && At(s, ts, k, pos, depth)
    ensures OrNext(s, pos, depth > 0) <==> k < |ts| && ts[k].token == OrToken
    ensures k < |ts| && ts[k].token == OrToken ==> At(s, ts, k + 1, SkipWhitespace(s, pos) + 2, depth)
    ensures At(s, ts, k, SkipWhitespace(s, pos), depth)
  {
    OperatorIsToken(s, ts, k, pos, depth);
  }

  lemma {:induction false} ExpressionLoopIsDerived(s: string, ts: seq<Placed>, i: nat, k: nat, pos: nat, left: Expr, depth: nat)
    returns (j: nat)
    requires AllStand(s, ts) && At(s, ts, k, pos, depth) && i <= k && IsExpression(ts, i, k, left) && ExpressionLoop(s, pos, left, depth > 0).Ok?
    ensures
      var (e, q) := ExpressionLoop(s, pos, left, depth > 0).value;
      k <= j && At(s, ts, j, q, depth) && IsExpression(ts, i, j, e)
    decreases |s| - pos, 4
  {
    var p := SkipWhitespace(s, pos);
    ExpressionLoopUnfolds(s, pos, left, depth > 0);
    OrIsToken(s, ts, k, pos, depth);
    if OrNext(s, pos, depth > 0) {
      var m := TermIsDerived(s, ts, k + 1, p + 2, depth);
      var (right, q) := ParseTerm(s, p + 2, depth > 0).value;
      ExpressionOf(ts, i, k, m, Or(left, right));
      j := ExpressionLoopIsDerived(s, ts, i, m, q, Or(left, right), depth);
    } else {
      j := k;
    }
  }

  lemma {:induction false} TermIsDerived(s: string, ts: seq<Placed>, i: nat, pos: nat, depth: nat) returns (j: nat)
    requires AllStand(s, ts) && At(s, ts, i, pos, depth) && ParseTerm(s, pos, depth > 0).Ok?
    ensures
      var (e, q) := ParseTerm(s, pos, depth > 0).value;
      i <= j && At(s, ts, j, q, depth) && IsTerm(ts, i, j, e)
    decreases |s| - pos, 3
  {
    var k := FactorIsDerived(s, ts, i, pos, depth);
    var (left, p) := ParseFactor(s, pos, depth > 0).value;
    j := TermLoopIsDerived(s, ts, i, k, p, left, depth);
  }

  /** Whether the loop over AND goes round once more. */
  predicate AndNext(s: string, pos: nat, allow: bool)
    requires pos <= |s|
  {
    !(allow && PeekIs(s, SkipWhitespace(s, pos), ')')) && MatchesOperatorAt(s, SkipWhitespace(s, pos), "AND")
  }

  lemma TermLoopUnfolds(s: string, pos: nat, left: Expr, allow: bool)
    requires pos <= |s|
    ensures !AndNext(s, pos, allow) ==> TermLoop(s, pos, left, allow) == Ok((left, SkipWhitespace(s, pos)))
    ensures AndNext(s, pos, allow) ==>
      var right := ParseFactor(s, SkipWhitespace(s, pos) + 3, allow);
      && (TermLoop(s, pos, left, allow).Ok? ==> right.Ok?)
      && (right.Ok? ==> TermLoop(s, pos, left, allow) == TermLoop(s, right.value.1, And(left, right.value.0), allow))
  {}

  lemma AndIsToken(s: string, ts: seq<Placed>, k: nat, pos: nat, depth: nat)
    requires AllStand(s, ts) && At(s, ts, k, pos, depth)
    ensures AndNext(s, pos, depth > 0) <==> k < |ts| && ts[k].token == AndToken
    ensures k < |ts| && ts[k].token == AndToken ==> At(s, ts, k + 1, SkipWhitespace(s, pos) + 3, depth)
    ensures At(s, ts, k, SkipWhitespace(s, pos), depth)
  {
    OperatorIsToken(s, ts, k, pos, depth);
  }

  lemma {:induction false} TermLoopIsDerived(s: string, ts: seq<Placed>, i: nat, k: nat, pos: nat, left: Expr, depth: nat)
    returns (j: nat)
    requires AllStand(s, ts) && At(s, ts, k, pos, depth) && i <= k && IsTerm(ts, i, k, left) && TermLoop(s, pos, left, depth > 0).Ok?
    ensures
      var (e, q) := TermLoop(s, pos, left, depth > 0).value;
      k <= j && At(s, ts, j, q, depth) && IsTerm(ts, i, j, e)
    decreases |s| - pos, 2
  {
    var p := SkipWhitespace(s, pos);
    TermLoopUnfolds(s, pos, left, depth > 0);
    AndIsToken(s, ts, k, pos, depth);
    if AndNext(s, pos, depth > 0) {
      var m := FactorIsDerived(s, ts, k + 1, p + 3, depth);
      var (right, q) := ParseFactor(s, p + 3, depth > 0).value;
      TermOf(ts, i, k, m, And(left, right));
      j := TermLoopIsDerived(s, ts, i, m, q, And(left, right), depth);
    } else {
      j := k;
    }
  }

  lemma {:induction false} FactorIsDerived(s: string, ts: seq<Placed>, i: nat, pos: nat, depth: nat) returns (j: nat)
    requires AllStand(s, ts) && At(s, ts, i, pos, depth) && ParseFactor(s, pos, depth > 0).Ok?
    ensures
      var (e, q) := ParseFactor(s, pos, depth > 0).value;
      i <= j && At(s, ts, j, q, depth) && IsFactor(ts, i, j, e)
    decreases |s| - pos, 1
  {
    var p := SkipWhitespace(s, pos);
    FactorSkips(s, pos, depth > 0);
    OperatorIsToken(s, ts, i, pos, depth);
    if MatchesOperatorAt(s, p, "NOT") {
      NegationIsFactor(s, p, depth > 0);
      j := FactorIsDerived(s, ts, i + 1, p + 3, depth);
      NegationOf(ts, i, j, ParseFactor(s, pos, depth > 0).value.0);
    } else if LooksLikeGroup(s, p) {
      j := GroupIsDerived(s, ts, i, p, depth);
    } else {
      PhraseIsDerived(s, ts, i, p, depth);
      j := i + 1;
    }
  }

  lemma {:induction false} GroupIsDerived(s: string, ts: seq<Placed>, i: nat, p: nat, depth: nat) returns (j: nat)
    requires AllStand(s, ts) && At(s, ts, i, p, depth) && SkipWhitespace(s, p) == p && LooksLikeGroup(s, p) && ParseFactor(s, p, depth > 0).Ok?
    ensures
      var (e, q) := ParseFactor(s, p, depth > 0).value;
      i <= j && At(s, ts, j, q, depth) && IsFactor(ts, i, j, e)
    decreases |s| - p, 0
  {
    assert ParseExpression(s, p + 1, true).Ok? by {
      GroupIsFactor(s, p, depth > 0);
    }
    OpenIsToken(s, ts, i, p, depth);
    var k := ExpressionIsDerived(s, ts, i + 1, p + 1, depth + 1);
    GroupEnds(s, ts, k, p, depth);
    j := k + 1;
    GroupOf(ts, i, j, ParseFactor(s, p, depth > 0).value.0);
  }

  lemma PhraseIsWord(s: string, p: nat, depth: nat)
    requires p <= |s| && SkipWhitespace(s, p) == p && ParseFactor(s, p, depth > 0).Ok?
    requires !MatchesOperatorAt(s, p, "NOT") && !LooksLikeGroup(s, p)
    ensures p < |s| && TokenAt(s, p, depth).Word?
  {
    assert s[p..p] == "";
  }

  lemma PhraseIsDerived(s: string, ts: seq<Placed>, i: nat, p: nat, depth: nat)
    requires AllStand(s, ts) && At(s, ts, i, p, depth) && SkipWhitespace(s, p) == p && ParseFactor(s, p, depth > 0).Ok?
    requires !MatchesOperatorAt(s, p, "NOT") && !LooksLikeGroup(s, p)
    ensures
      var (e, q) := ParseFactor(s, p, depth > 0).value;
      i < |ts| && At(s, ts, i + 1, q, depth) && IsFactor(ts, i, i + 1, e)
  {
    PhraseIsWord(s, p, depth);
    NextToken(s, ts, i, p, depth);
    WordIsPhrase(s, p, depth);
    WordOf(ts, i, ParseFactor(s, p, depth > 0).value.0);
  }

  // ----- what is derived is parsed

  lemma {:induction false} FactorIsParsed(s: string, ts: seq<Placed>, i: nat, j: nat, pos: nat, depth: nat, e: Expr)
    requires AllStand(s, ts) && At(s, ts, i, pos, depth) && i <= j <= |ts| && IsFactor(ts, i, j, e)
    ensures
      var r := ParseFactor(s, pos, depth > 0);
      r.Ok? && r.value.0 == e && At(s, ts, j, r.value.1, depth)
    decreases j - i, 1
  {
    var p := SkipWhitespace(s, pos);
    FactorSkips(s, pos, depth > 0);
    OperatorIsToken(s, ts, i, pos, depth);
    if ts[i].token == NotToken {
      FactorIsParsed(s, ts, i + 1, j, p + 3, depth, e.operand);
    } else if ts[i].token == Open {
      GroupIsParsed(s, ts, i, j, p, depth, e);
    } else {
      NextToken(s, ts, i, pos, depth);
      WordIsPhrase(s, p, depth);
    }
  }

  lemma {:induction false} GroupIsParsed(s: string, ts: seq<Placed>, i: nat, j: nat, p: nat, depth: nat, e: Expr)
    requires AllStand(s, ts) && At(s, ts, i, p, depth) && SkipWhitespace(s, p) == p
    requires i + 2 <= j <= |ts| && ts[i].token == Open && ts[j - 1].token == Close && IsExpression(ts, i + 1, j - 1, e)
    ensures
      var r := ParseFactor(s, p, depth > 0);
      r.Ok? && r.value.0 == e && At(s, ts, j, r.value.1, depth)
    decreases j - i, 0
  {
    OpenIsToken(s, ts, i, p, depth);
    ExpressionIsParsed(s, ts, i + 1, j - 1, p + 1, depth + 1, e);
    GroupEnds(s, ts, j - 1, p, depth);
  }

  lemma {:induction false} NextFactorIsReached(s: string, ts: seq<Placed>, k: nat, j: nat, p: nat, depth: nat, e: Expr)
    returns (q: nat)
    requires AllStand(s, ts) && At(s, ts, k, p, depth) && k < j <= |ts| && ts[k].token == AndToken && e.And? && IsFactor(ts, k + 1, j, e.right)
    ensures At(s, ts, j, q, depth) && TermLoop(s, p, e.left, depth > 0) == TermLoop(s, q, e, depth > 0)
    decreases j - k, 1
  {
    var f := SkipWhitespace(s, p) + 3;
    TermLoopUnfolds(s, p, e.left, depth > 0);
    AndIsToken(s, ts, k, p, depth);
    FactorIsParsed(s, ts, k + 1, j, f, depth, e.right);
    q := ParseFactor(s, f, depth > 0).value.1;
  }

  /** The parser comes to have read a derived term, wherever that ends. */
  lemma {:induction false} TermIsReached(s: string, ts: seq<Placed>, i: nat, j: nat, pos: nat, depth: nat, e: Expr) returns (q: nat)
    requires AllStand(s, ts) && At(s, ts, i, pos, depth) && i <= j <= |ts| && IsTerm(ts, i, j, e)
    ensures At(s, ts, j, q, depth) && ParseTerm(s, pos, depth > 0) == TermLoop(s, q, e, depth > 0)
    decreases j - i, 2
  {
    if IsFactor(ts, i, j, e) {
      FactorIsParsed(s, ts, i, j, pos, depth, e);
      q := ParseFactor(s, pos, depth > 0).value.1;
    } else {
      var k: nat :| k < j && LastAnd(ts, i, k, j, e);
      var p := TermIsReached(s, ts, i, k, pos, depth, e.left);
      q := NextFactorIsReached(s, ts, k, j, p, depth, e);
    }
  }

  lemma {:induction false} TermIsParsed(s: string, ts: seq<Placed>, i: nat, j: nat, pos: nat, depth: nat, e: Expr)
    requires AllStand(s, ts) && At(s, ts, i, pos, depth) && i <= j <= |ts| && IsTerm(ts, i, j, e) && (j < |ts| ==> ts[j].token != AndToken)
    ensures
      var r := ParseTerm(s, pos, depth > 0);
      r.Ok? && r.value.0 == e && At(s, ts, j, r.value.1, depth)
    decreases j - i, 3
  {
    var q := TermIsReached(s, ts, i, j, pos, depth, e);
    TermLoopUnfolds(s, q, e, depth > 0);
    AndIsToken(s, ts, j, q, depth);
  }

  lemma {:induction false} NextTermIsReached(s: string, ts: seq<Placed>, k: nat, j: nat, p: nat, depth: nat, e: Expr) returns (q: nat)
    requires AllStand(s, ts) && At(s, ts, k, p, depth) && k < j <= |ts| && ts[k].token == OrToken && (j < |ts| ==> ts[j].token != AndToken)
    requires e.Or? && IsTerm(ts, k + 1, j, e.right)
    ensures At(s, ts, j, q, depth) && ExpressionLoop(s, p, e.left, depth > 0) == ExpressionLoop(s, q, e, depth > 0)
    decreases j - k, 3
  {
    var t := SkipWhitespace(s, p) + 2;
    ExpressionLoopUnfolds(s, p, e.left, depth > 0);
    OrIsToken(s, ts, k, p, depth);
    TermIsParsed(s, ts, k + 1, j, t, depth, e.right);
    q := ParseTerm(s, t, depth > 0).value.1;
  }

  lemma {:induction false} ExpressionIsReached(s: string, ts: seq<Placed>, i: nat, j: nat, pos: nat, depth: nat, e: Expr)
    returns (q: nat)
    requires AllStand(s, ts) && At(s, ts, i, pos, depth) && i <= j <= |ts| && IsExpression(ts, i, j, e) && (j < |ts| ==> ts[j].token != AndToken)
    ensures At(s, ts, j, q, depth) && ParseExpression(s, pos, depth > 0) == ExpressionLoop(s, q, e, depth > 0)
    decreases j - i, 4
  {
    if IsTerm(ts, i, j, e) {
      TermIsParsed(s, ts, i, j, pos, depth, e);
      q := ParseTerm(s, pos, depth > 0).value.1;
    } else {
      var k: nat :| k < j && LastOr(ts, i, k, j, e);
      var p := ExpressionIsReached(s, ts, i, k, pos, depth, e.left);
      q := NextTermIsReached(s, ts, k, j, p, depth, e);
    }
  }

  lemma {:induction false} ExpressionIsParsed(s: string, ts: seq<Placed>, i: nat, j: nat, pos: nat, depth: nat, e: Expr)
    requires AllStand(s, ts) && At(s, ts, i, pos, depth) && i <= j <= |ts| && IsExpression(ts, i, j, e)
    requires j < |ts| ==> ts[j].token != AndToken && ts[j].token != OrToken
    ensures
      var r := ParseExpression(s, pos, depth > 0);
      r.Ok? && r.value.0 == e && At(s, ts, j, r.value.1, depth)
    decreases j - i, 5
  {
    var q := ExpressionIsReached(s, ts, i, j, pos, depth, e);
    ExpressionLoopUnfolds(s, q, e, depth > 0);
    OrIsToken(s, ts, j, q, depth);
  }

  /** The grammar derives the tokens of the text from the tree. */
  predicate Derives(s: string, e: Expr) {
    IsExpression(Tokens(s), 0, |Tokens(s)|, e)
  }

  /** On every input: the parser returns a tree if and only if the grammar derives the input from it. */
  lemma ParseIsDerivation(s: string, e: Expr)
    ensures Parse(s) == Ok(e) <==> Derives(s, e)
  {
    var ts, start := Tokens(s), SkipWhitespace(s, 0);
    ScanStands(s, ts, 0, 0, 0);
    NextToken(s, ts, 0, 0, 0);
    if Parse(s) == Ok(e) {
      var j := ExpressionIsDerived(s, ts, 0, start, 0);
      NextToken(s, ts, j, ParseExpression(s, start, false).value.1, 0);
    }
    if Derives(s, e) {
      ExpressionIsParsed(s, ts, 0, |ts|, start, 0, e);
      NextToken(s, ts, |ts|, ParseExpression(s, start, false).value.1, 0);
    }
  }

  /** The grammar is unambiguous: a text is derived from one tree at most. */
  lemma DerivationIsUnique(s: string, a: Expr, b: Expr)
    requires Derives(s, a) && Derives(s, b)
    ensures a == b
  {
    ParseIsDerivation(s, a);
    ParseIsDerivation(s, b);
  }
}
