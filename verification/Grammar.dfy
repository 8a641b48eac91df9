/** The grammar of boolean queries: what the recursive-descent parser computes at each position.
    Positions count characters. */
module Grammar {
  import opened Wrappers
  import opened Text
  import opened BooleanExpr

  type Parsed = Result<(Expr, nat)>

  predicate IsOperatorBoundary(c: char) {
    IsWhitespace(c) || c in {'(', ')', ',', ';'}
  }

  predicate StartsWith(s: string, pos: nat, op: string) {
    pos + |op| <= |s| && s[pos..pos + |op|] == op
  }

  predicate MatchesOperatorAt(s: string, pos: nat, op: string) {
    && StartsWith(s, pos, op)
    && (pos > 0 ==> IsOperatorBoundary(s[pos - 1]))
    && (pos + |op| < |s| ==> IsOperatorBoundary(s[pos + |op|]))
  }

  predicate AnyOperatorAt(s: string, pos: nat) {
    MatchesOperatorAt(s, pos, "AND") || MatchesOperatorAt(s, pos, "OR") || MatchesOperatorAt(s, pos, "NOT")
  }

  predicate PeekIs(s: string, pos: nat, c: char) {
    pos < |s| && s[pos] == c
  }

  function SkipWhitespace(s: string, pos: nat): (p: nat)
    requires pos <= |s|
    ensures pos <= p <= |s|
    ensures p < |s| ==> !IsWhitespace(s[p])
    decreases |s| - pos
  {
    if pos < |s| && IsWhitespace(s[pos]) then SkipWhitespace(s, pos + 1) else pos
  }

  /** The parenthesis that closes the one at which the search starts. */
  function FindMatchingParen(s: string, index: nat, depth: nat): (close: Option<nat>)
    ensures close.Some? ==> index <= close.value < |s|
    decreases |s| - index
  {
    if index >= |s| then None
    else if s[index] == '(' then FindMatchingParen(s, index + 1, depth + 1)
    else if s[index] == ')' then
      if depth <= 1 then Some(index) else FindMatchingParen(s, index + 1, depth - 1)
    else FindMatchingParen(s, index + 1, depth)
  }

  /** An operator between `start` and `end`, whose ends count as boundaries. */
  predicate OperatorWithin(s: string, start: nat, end: nat, index: nat, op: string)
    requires start <= index <= end <= |s|
  {
    && StartsWith(s[..end], index, op)
    && (index == start || IsOperatorBoundary(s[index - 1]))
    && (index + |op| < end ==> IsOperatorBoundary(s[index + |op|]))
  }

  predicate AnyOperatorWithin(s: string, start: nat, end: nat, index: nat)
    requires start <= index <= end <= |s|
  {
    OperatorWithin(s, start, end, index, "AND") || OperatorWithin(s, start, end, index, "OR") || OperatorWithin(s, start, end, index, "NOT")
  }

  predicate ContainsOperatorFrom(s: string, start: nat, end: nat, index: nat)
    requires start <= index <= end <= |s|
    decreases end - index
  {
    if index == end then false
    else if IsOperatorBoundary(s[index]) then ContainsOperatorFrom(s, start, end, index + 1)
    else AnyOperatorWithin(s, start, end, index) || ContainsOperatorFrom(s, start, end, index + 1)
  }

  predicate LooksLikeGroup(s: string, pos: nat) {
    && PeekIs(s, pos, '(')
    && var close := FindMatchingParen(s, pos, 0);
       close.Some? && pos < close.value && ContainsOperatorFrom(s, pos + 1, close.value, pos + 1)
  }

  /** Where a keyword phrase ends. */
  function PhraseEnd(s: string, pos: nat, allowRightParen: bool): (p: nat)
    requires pos <= |s|
    ensures pos <= p <= |s|
    decreases |s| - pos
  {
    if pos == |s| || (allowRightParen && s[pos] == ')') || AnyOperatorAt(s, pos) then pos
    else PhraseEnd(s, pos + 1, allowRightParen)
  }

  function ParseKeywordPhrase(s: string, pos: nat, allowRightParen: bool): (r: Parsed)
    requires pos <= |s|
    ensures r.Ok? ==> pos < r.value.1 <= |s|
  {
    var end := PhraseEnd(s, pos, allowRightParen);
    var keyword := Trim(s[pos..end]);
    if keyword == "" then Err("Expected keyword") else Ok((Keyword(keyword), end))
  }

  function ParseExpression(s: string, pos: nat, allowRightParen: bool): (r: Parsed)
    requires pos <= |s|
    ensures r.Ok? ==> pos < r.value.1 <= |s|
    decreases |s| - pos, 5
  {
    match ParseTerm(s, pos, allowRightParen)
    case Err(e) => Err(e)
    case Ok((left, p)) => ExpressionLoop(s, p, left, allowRightParen)
  }

  function ExpressionLoop(s: string, pos: nat, left: Expr, allowRightParen: bool): (r: Parsed)
    requires pos <= |s|
    ensures r.Ok? ==> pos <= r.value.1 <= |s|
    decreases |s| - pos, 4
  {
    var p := SkipWhitespace(s, pos);
    if allowRightParen && PeekIs(s, p, ')') then Ok((left, p))
    else if MatchesOperatorAt(s, p, "OR") then
      match ParseTerm(s, p + 2, allowRightParen)
      case Err(e) => Err(e)
      case Ok((right, q)) => ExpressionLoop(s, q, Or(left, right), allowRightParen)
    else Ok((left, p))
  }

  function ParseTerm(s: string, pos: nat, allowRightParen: bool): (r: Parsed)
    requires pos <= |s|
    ensures r.Ok? ==> pos < r.value.1 <= |s|
    decreases |s| - pos, 3
  {
    match ParseFactor(s, pos, allowRightParen)
    case Err(e) => Err(e)
    case Ok((left, p)) => TermLoop(s, p, left, allowRightParen)
  }

  function TermLoop(s: string, pos: nat, left: Expr, allowRightParen: bool): (r: Parsed)
    requires pos <= |s|
    ensures r.Ok? ==> pos <= r.value.1 <= |s|
    decreases |s| - pos, 2
  {
    var p := SkipWhitespace(s, pos);
    if allowRightParen && PeekIs(s, p, ')') then Ok((left, p))
    else if MatchesOperatorAt(s, p, "AND") then
      match ParseFactor(s, p + 3, allowRightParen)
      case Err(e) => Err(e)
      case Ok((right, q)) => TermLoop(s, q, And(left, right), allowRightParen)
    else Ok((left, p))
  }

  /** Every success consumes at least one character, which is why the parser ends on every input. */
  function ParseFactor(s: string, pos: nat, allowRightParen: bool): (r: Parsed)
    requires pos <= |s|
    ensures r.Ok? ==> pos < r.value.1 <= |s|
    decreases |s| - pos, 1
  {
    var p := SkipWhitespace(s, pos);
    if MatchesOperatorAt(s, p, "NOT") then
      match ParseFactor(s, p + 3, allowRightParen)
      case Err(e) => Err(e)
      case Ok((operand, q)) => Ok((Not(operand), q))
    else ParsePrimary(s, p, allowRightParen)
  }

  function ParsePrimary(s: string, p: nat, allowRightParen: bool): (r: Parsed)
    requires p <= |s|
    ensures r.Ok? ==> p < r.value.1 <= |s|
    decreases |s| - p, 0
  {
    if LooksLikeGroup(s, p) then
      match ParseExpression(s, p + 1, true)
      case Err(e) => Err(e)
      case Ok((e, q)) =>
        var close := SkipWhitespace(s, q);
        if PeekIs(s, close, ')') then Ok((e, close + 1)) else Err("Expected ')'")
    else ParseKeywordPhrase(s, p, allowRightParen)
  }

  function Parse(s: string): Result<Expr> {
    match ParseExpression(s, SkipWhitespace(s, 0), false)
    case Err(e) => Err(e)
    case Ok((e, p)) => if SkipWhitespace(s, p) == |s| then Ok(e) else Err("Unexpected token after expression")
  }
}
