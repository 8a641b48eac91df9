/** The recursive-descent parser, which moves its `pos` field over the input. */
module Parser {
  import opened Wrappers
  import opened Text
  import opened BooleanExpr
  import opened Grammar

  class Parser {
    const input: string
    var pos: nat

    ghost predicate Valid()
      reads this
    {
      pos <= |input|
    }

    constructor (input: string)
      ensures Valid() && this.input == input && pos == 0
    {
      this.input := input;
      pos := 0;
    }

    method SkipWhitespace()
      requires Valid()
      modifies this
      ensures Valid() && pos == Grammar.SkipWhitespace(input, old(pos))
    {
      while pos < |input| && IsWhitespace(input[pos])
        invariant Valid() && Grammar.SkipWhitespace(input, pos) == Grammar.SkipWhitespace(input, old(pos))
        decreases |input| - pos
      {
        pos := pos + 1;
      }
    }

    method ConsumeOperator(op: string) returns (consumed: bool)
      requires Valid()
      modifies this
      ensures Valid() && consumed == MatchesOperatorAt(input, old(pos), op)
      ensures pos == if consumed then old(pos) + |op| else old(pos)
    {
      consumed := MatchesOperatorAt(input, pos, op);
      if consumed {
        pos := pos + |op|;
      }
    }

    method FindMatchingParen() returns (close: Option<nat>)
      requires Valid()
      ensures close == Grammar.FindMatchingParen(input, pos, 0)
    {
      var depth: nat := 0;
      var index := pos;
      while index < |input|
        invariant pos <= index <= |input|
        invariant Grammar.FindMatchingParen(input, index, depth) == Grammar.FindMatchingParen(input, pos, 0)
      {
        if input[index] == '(' {
          depth := depth + 1;
        } else if input[index] == ')' {
          depth := if depth == 0 then 0 else depth - 1;
          if depth == 0 {
            return Some(index);
          }
        }
        index := index + 1;
      }
      close := None;
    }

    method ContainsTopLevelOperator(start: nat, end: nat) returns (found: bool)
      requires start <= end <= |input|
      ensures found == ContainsOperatorFrom(input, start, end, start)
    {
      var index := start;
      while index < end
        invariant start <= index <= end
        invariant ContainsOperatorFrom(input, start, end, index) == ContainsOperatorFrom(input, start, end, start)
      {
        if !IsOperatorBoundary(input[index]) && AnyOperatorWithin(input, start, end, index) {
          return true;
        }
        index := index + 1;
      }
      found := false;
    }

    method LooksLikeGroup() returns (group: bool)
      requires Valid()
      ensures group == Grammar.LooksLikeGroup(input, pos)
    {
      if !PeekIs(input, pos, '(') {
        return false;
      }
      var close := FindMatchingParen();
      if close.None? {
        return false;
      }
      group := ContainsTopLevelOperator(pos + 1, close.value);
    }

    /** The outcome of a parsing method: the result, and on success the position reached. */
    ghost predicate Reached(expected: Parsed, actual: Result<Expr>)
      reads this
    {
      && Valid()
      && match expected
         case Err(e) => actual == Err(e)
         case Ok((e, p)) => actual == Ok(e) && pos == p
    }

    method ParseExpression(allowRightParen: bool) returns (r: Result<Expr>)
      requires Valid()
      modifies this
      ensures Reached(Grammar.ParseExpression(input, old(pos), allowRightParen), r)
      decreases |input| - pos, 5
    {
      var left := ParseTerm(allowRightParen);
      if left.Err? {
        return left;
      }
      r := ExpressionLoop(left.value, allowRightParen);
    }

    method ExpressionLoop(first: Expr, allowRightParen: bool) returns (r: Result<Expr>)
      requires Valid()
      modifies this
      ensures Reached(Grammar.ExpressionLoop(input, old(pos), first, allowRightParen), r)
      decreases |input| - pos, 4
    {
      var left := first;
      while true
        invariant Valid() && old(pos) <= pos
        invariant Grammar.ExpressionLoop(input, pos, left, allowRightParen) == Grammar.ExpressionLoop(input, old(pos), first, allowRightParen)
        decreases |input| - pos
      {
        SkipWhitespace();
        if allowRightParen && PeekIs(input, pos, ')') {
          return Ok(left);
        }
        var consumed := ConsumeOperator("OR");
        if !consumed {
          return Ok(left);
        }
        var right := ParseTerm(allowRightParen);
        if right.Err? {
          return right;
        }
        left := Or(left, right.value);
      }
    }

    method ParseTerm(allowRightParen: bool) returns (r: Result<Expr>)
      requires Valid()
      modifies this
      ensures Reached(Grammar.ParseTerm(input, old(pos), allowRightParen), r)
      decreases |input| - pos, 3
    {
      var left := ParseFactor(allowRightParen);
      if left.Err? {
        return left;
      }
      r := TermLoop(left.value, allowRightParen);
    }

    method TermLoop(first: Expr, allowRightParen: bool) returns (r: Result<Expr>)
      requires Valid()
      modifies this
      ensures Reached(Grammar.TermLoop(input, old(pos), first, allowRightParen), r)
      decreases |input| - pos, 2
    {
      var left := first;
      while true
        invariant Valid() && old(pos) <= pos
        invariant Grammar.TermLoop(input, pos, left, allowRightParen) == Grammar.TermLoop(input, old(pos), first, allowRightParen)
        decreases |input| - pos
      {
        SkipWhitespace();
        if allowRightParen && PeekIs(input, pos, ')') {
          return Ok(left);
        }
        var consumed := ConsumeOperator("AND");
        if !consumed {
          return Ok(left);
        }
        var right := ParseFactor(allowRightParen);
        if right.Err? {
          return right;
        }
        left := And(left, right.value);
      }
    }

    method ParseKeywordPhrase(allowRightParen: bool) returns (r: Result<Expr>)
      requires Valid()
      modifies this
      ensures Reached(Grammar.ParseKeywordPhrase(input, old(pos), allowRightParen), r)
    {
      var start := pos;
      while pos < |input| && !(allowRightParen && input[pos] == ')') && !AnyOperatorAt(input, pos)
        invariant start <= pos && Valid()
        invariant PhraseEnd(input, pos, allowRightParen) == PhraseEnd(input, start, allowRightParen)
        decreases |input| - pos
      {
        pos := pos + 1;
      }
      var keyword := Trim(input[start..pos]);
      r := if keyword == "" then Err("Expected keyword") else Ok(Keyword(keyword));
    }

    method ParseFactor(allowRightParen: bool) returns (r: Result<Expr>)
      requires Valid()
      modifies this
      ensures Reached(Grammar.ParseFactor(input, old(pos), allowRightParen), r)
      decreases |input| - pos, 1
    {
      SkipWhitespace();
      var negated := ConsumeOperator("NOT");
      if negated {
        var operand := ParseFactor(allowRightParen);
        return if operand.Err? then operand else Ok(Not(operand.value));
      }
      var group := LooksLikeGroup();
      if group {
        pos := pos + 1;
        var inner := ParseExpression(true);
        if inner.Err? {
          return inner;
        }
        SkipWhitespace();
        if !PeekIs(input, pos, ')') {
          return Err("Expected ')'");
        }
        pos := pos + 1;
        return inner;
      }
      r := ParseKeywordPhrase(allowRightParen);
    }

    method Parse() returns (r: Result<Expr>)
      requires Valid() && pos == 0
      modifies this
      ensures r == Grammar.Parse(input)
    {
      SkipWhitespace();
      var expr := ParseExpression(false);
      if expr.Err? {
        return expr;
      }
      SkipWhitespace();
      r := if pos < |input| then Err("Unexpected token after expression") else expr;
    }
  }
}
