/** Boolean queries: expressions over keywords, their printed form, and what they select. */
module BooleanExpr {
  datatype Expr =
    | Keyword(keyword: string)
    | And(left: Expr, right: Expr)
    | Or(left: Expr, right: Expr)
    | Not(operand: Expr)
  {
    function GetKeywords(): set<string> {
      match this
      case Keyword(kw) => {kw}
      case And(l, r) => l.GetKeywords() + r.GetKeywords()
      case Or(l, r) => l.GetKeywords() + r.GetKeywords()
      case Not(e) => e.GetKeywords()
    }

    /** There is no universe to complement in, so a negation selects nothing. */
    function Evaluate(results: map<string, set<string>>): set<string> {
      match this
      case Keyword(kw) => if kw in results then results[kw] else {}
      case And(l, r) => l.Evaluate(results) * r.Evaluate(results)
      case Or(l, r) => l.Evaluate(results) + r.Evaluate(results)
      case Not(_) => {}
    }

    function ToString(): string {
      match this
      case Keyword(kw) => kw
      case And(l, r) => "(" + l.ToString() + " AND " + r.ToString() + ")"
      case Or(l, r) => "(" + l.ToString() + " OR " + r.ToString() + ")"
      case Not(e) => "(NOT " + e.ToString() + ")"
    }

    predicate NotFree() {
      match this
      case Keyword(_) => true
      case And(l, r) => l.NotFree() && r.NotFree()
      case Or(l, r) => l.NotFree() && r.NotFree()
      case Not(_) => false
    }
  }

  /** An expression selects by its own keywords alone, and nothing that none of them selects. */
  lemma {:induction false} EvaluateReadsItsKeywords(e: Expr, results: map<string, set<string>>, results': map<string, set<string>>)
    requires forall kw :: kw in e.GetKeywords() ==>
      (if kw in results then results[kw] else {}) == (if kw in results' then results'[kw] else {})
    ensures e.Evaluate(results') == e.Evaluate(results)
    ensures forall fid :: fid in e.Evaluate(results) ==>
      exists kw :: kw in e.GetKeywords() && kw in results && fid in results[kw]
  {
    match e
    case Keyword(_) =>
    case And(l, r) =>
      EvaluateReadsItsKeywords(l, results, results');
      EvaluateReadsItsKeywords(r, results, results');
    case Or(l, r) =>
      EvaluateReadsItsKeywords(l, results, results');
      EvaluateReadsItsKeywords(r, results, results');
    case Not(_) =>
  }

  /** The truth of a query for an identifier found under these keywords; a negation is never true. */
  predicate Satisfied(e: Expr, found: set<string>) {
    match e
    case Keyword(kw) => kw in found
    case And(l, r) => Satisfied(l, found) && Satisfied(r, found)
    case Or(l, r) => Satisfied(l, found) || Satisfied(r, found)
    case Not(_) => false
  }

  /** A query selects the identifiers for which it is true. */
  lemma {:induction false} SelectsTheSatisfying(e: Expr, results: map<string, set<string>>, fid: string)
    ensures fid in e.Evaluate(results) <==> Satisfied(e, set kw | kw in results && fid in results[kw])
  {
    match e
    case Keyword(_) =>
    case And(l, r) =>
      SelectsTheSatisfying(l, results, fid);
      SelectsTheSatisfying(r, results, fid);
    case Or(l, r) =>
      SelectsTheSatisfying(l, results, fid);
      SelectsTheSatisfying(r, results, fid);
    case Not(_) =>
  }
}
