/**
 WHERE-clause predicates: the recursive-descent parser over tokens, the grammar it implements, and
 evaluation. A string token carries the text between its quotes, a number token its numeric value.
 */
module Predicates {
  import opened Options
  import opened Values

  datatype Keyword = AND | OR | NOT | TRUE | FALSE | NULL
  datatype CompareOp = Eq | Ne | NeAngle | Lt | Le | Gt | Ge

  datatype Token =
    | Kw(keyword: Keyword)
    | LParen
    | RParen
    | Op(op: CompareOp)
    | Str(inner: string)
    | Number(value: real)
    | Word(name: string)

  datatype Node =
    | Comparison(column: string, op: CompareOp, literal: Value)
    | Logical(junction: Junction, operands: seq<Node>)
    | Not(operand: Node)

  datatype Junction = Conjunction | Disjunction

  // ---------- words and literals ----------

  /** replace("''", "'"): leftmost, non-overlapping. */
  function Unescape(s: string): string {
    if |s| >= 2 && s[..2] == "''" then "'" + Unescape(s[2..])
    else if s == "" then ""
    else s[..1] + Unescape(s[1..])
  }

  function Escape(s: string): string {
    if s == "" then "" else (if s[0] == '\'' then "''" else s[..1]) + Escape(s[1..])
  }

  lemma {:induction false} UnescapeInvertsEscape(s: string)
    ensures Unescape(Escape(s)) == s
  {
    if s != "" {
      UnescapeInvertsEscape(s[1..]);
      var rest := Escape(s[1..]);
      if s[0] == '\'' {
        assert Escape(s)[..2] == "''" && Escape(s)[2..] == rest;
      } else {
        assert Escape(s)[0] == s[0] && Escape(s)[1..] == rest && Escape(s)[..1] == s[..1];
        assert |rest| > 0 ==> Escape(s)[..2][0] != '\'';
      }
      assert s == s[..1] + s[1..];
    }
  }

  /** A quote is written as two, everything else as itself. */
  lemma EscapeWrites(s: string, c: char)
    ensures Escape("") == "" && Escape([c] + s) == (if c == '\'' then "''" else [c]) + Escape(s)
  {
  }

  /** Two quotes read as one, and whatever is not two quotes as itself. */
  lemma UnescapeReads(s: string, c: char)
    ensures Unescape("''" + s) == "'" + Unescape(s)
    ensures c != '\'' || s == "" || s[0] != '\'' ==> Unescape([c] + s) == [c] + Unescape(s)
  {
    assert ("''" + s)[..2] == "''" && ("''" + s)[2..] == s;
    assert ([c] + s)[..1] == [c] && ([c] + s)[1..] == s;
    assert |s| > 0 ==> ([c] + s)[..2] == [c, s[0]];
  }

  /** split(".")[-1]: a table qualifier is dropped. */
  function Unqualified(name: string): (column: string)
    ensures '.' !in column
    ensures '.' !in name ==> column == name
    ensures '.' in name ==> exists i :: 0 <= i < |name| && name[i] == '.' && column == name[i + 1..]
  {
    if '.' !in name then name
    else if name[|name| - 1] == '.' then ""
    else
      var init := name[..|name| - 1];
      assert name == init + [name[|name| - 1]];
      var column := Unqualified(init) + [name[|name| - 1]];
      assert exists i :: 0 <= i < |name| && name[i] == '.' && column == name[i + 1..] by {
        var i :| 0 <= i < |init| && init[i] == '.' && Unqualified(init) == init[i + 1..];
        assert name[i] == '.' && column == name[i + 1..];
      }
      column
  }

  /** The literal of a token, for the tokens that are literals. */
  function LiteralOf(t: Token): Option<Value> {
    match t
    case Kw(TRUE) => Some(Bool(true))
    case Kw(FALSE) => Some(Bool(false))
    case Kw(NULL) => Some(Null)
    case Str(inner) => Some(Text(Unescape(inner)))
    case Number(value) => Some(Num(value))
    case _ => None
  }

  function TokenOf(v: Value): (t: Token)
    requires !v.Other?
    ensures LiteralOf(t) == Some(v)
  {
    match v
    case Null => Kw(NULL)
    case Bool(b) => Kw(if b then TRUE else FALSE)
    case Num(n) => Number(n)
    case Text(s) =>
      UnescapeInvertsEscape(s);
      Str(Escape(s))
  }

  // ---------- the grammar ----------

  /** expr := and_expr (OR and_expr)* */
  datatype ExprTree = Single(only: AndTree) | Or(first: AndTree, rest: ExprTree)

  /** and_expr := unary (AND unary)* */
  datatype AndTree = Sole(only: UnaryTree) | And(first: UnaryTree, rest: AndTree)

  /** unary := NOT unary | '(' expr ')' | comparison, with comparison := IDENT op literal */
  datatype UnaryTree =
    | Negated(inner: UnaryTree)
    | Parens(expr: ExprTree)
    | Compare(name: string, op: CompareOp, literal: Literal)

  type Literal = t: Token | LiteralOf(t).Some? witness Kw(NULL)

  function ExprYield(e: ExprTree): seq<Token> {
    match e
    case Single(a) => AndYield(a)
    case Or(a, rest) => AndYield(a) + [Kw(OR)] + ExprYield(rest)
  }

  function AndYield(a: AndTree): seq<Token> {
    match a
    case Sole(u) => UnaryYield(u)
    case And(u, rest) => UnaryYield(u) + [Kw(AND)] + AndYield(rest)
  }

  function UnaryYield(u: UnaryTree): (s: seq<Token>)
    ensures s != []
  {
    match u
    case Negated(v) => [Kw(NOT)] + UnaryYield(v)
    case Parens(e) => [LParen] + ExprYield(e) + [RParen]
    case Compare(name, op, literal) => [Word(name), Op(op), literal]
  }

  /** One operand stands for itself, several are joined. */
  function Join(junction: Junction, operands: seq<Node>): Node {
    if |operands| == 1 then operands[0] else Logical(junction, operands)
  }

  function ExprOperands(e: ExprTree): (s: seq<Node>)
    ensures s != []
    decreases e, 0
  {
    match e
    case Single(a) => [AndNode(a)]
    case Or(a, rest) => [AndNode(a)] + ExprOperands(rest)
  }

  function AndOperands(a: AndTree): (s: seq<Node>)
    ensures s != []
    decreases a, 0
  {
    match a
    case Sole(u) => [UnaryNode(u)]
    case And(u, rest) => [UnaryNode(u)] + AndOperands(rest)
  }

  function ExprNode(e: ExprTree): Node
    decreases e, 1
  {
    Join(Disjunction, ExprOperands(e))
  }

  function AndNode(a: AndTree): Node
    decreases a, 1
  {
    Join(Conjunction, AndOperands(a))
  }

  function UnaryNode(u: UnaryTree): Node
    decreases u, 0
  {
    match u
    case Negated(v) => Not(UnaryNode(v))
    case Parens(e) => ExprNode(e)
    case Compare(name, op, literal) => Comparison(Unqualified(name), op, LiteralOf(literal).value)
  }

  /** The documented grammar derives the tokens, with this meaning. */
  ghost predicate Derives(tokens: seq<Token>, node: Node) {
    exists e :: ExprYield(e) == tokens && ExprNode(e) == node
  }

  // ---------- the parser ----------

  /** PredicateError, or a node and the position after it. */
  datatype Parsed = Fail | Ok(node: Node, pos: nat)

  function ParseExpr(t: seq<Token>, p: nat): (r: Parsed)
    requires p <= |t|
    ensures r.Ok? ==> p < r.pos <= |t|
    decreases |t| - p, 5
  {
    match ParseAnd(t, p)
    case Fail => Fail
    case Ok(n, q) => MoreOr(t, q, [n])
  }

  function MoreOr(t: seq<Token>, p: nat, operands: seq<Node>): (r: Parsed)
    requires p <= |t|
    ensures r.Ok? ==> p <= r.pos <= |t|
    decreases |t| - p, 4
  {
    if p < |t| && t[p] == Kw(OR) then
      match ParseAnd(t, p + 1)
      case Fail => Fail
      case Ok(n, q) => MoreOr(t, q, operands + [n])
    else
      Ok(Join(Disjunction, operands), p)
  }

  function ParseAnd(t: seq<Token>, p: nat): (r: Parsed)
    requires p <= |t|
    ensures r.Ok? ==> p < r.pos <= |t|
    decreases |t| - p, 3
  {
    match ParseUnary(t, p)
    case Fail => Fail
    case Ok(n, q) => MoreAnd(t, q, [n])
  }

  function MoreAnd(t: seq<Token>, p: nat, operands: seq<Node>): (r: Parsed)
    requires p <= |t|
    ensures r.Ok? ==> p <= r.pos <= |t|
    decreases |t| - p, 2
  {
    if p < |t| && t[p] == Kw(AND) then
      match ParseUnary(t, p + 1)
      case Fail => Fail
      case Ok(n, q) => MoreAnd(t, q, operands + [n])
    else
      Ok(Join(Conjunction, operands), p)
  }

  function ParseUnary(t: seq<Token>, p: nat): (r: Parsed)
    requires p <= |t|
    ensures r.Ok? ==> p < r.pos <= |t|
    decreases |t| - p, 1
  {
    if p < |t| && t[p] == Kw(NOT) then
      match ParseUnary(t, p + 1)
      case Fail => Fail
      case Ok(n, q) => Ok(Not(n), q)
    else if p < |t| && t[p] == LParen then
      match ParseExpr(t, p + 1)
      case Fail => Fail
      case Ok(n, q) => if q < |t| && t[q] == RParen then Ok(n, q + 1) else Fail
    else
      ParseComparison(t, p)
  }

  function ParseComparison(t: seq<Token>, p: nat): (r: Parsed)
    requires p <= |t|
    ensures r.Ok? ==> r.pos == p + 3 <= |t|
  {
    if p + 3 <= |t| && t[p].Word? && t[p + 1].Op? && LiteralOf(t[p + 2]).Some? then
      Ok(Comparison(Unqualified(t[p].name), t[p + 1].op, LiteralOf(t[p + 2]).value), p + 3)
    else
      Fail
  }

  /** The whole clause, without trailing tokens. */
  function ParseAll(t: seq<Token>): Option<Node> {
    match ParseExpr(t, 0)
    case Fail => None
    case Ok(n, q) => if q == |t| then Some(n) else None
  }

  // ---------- what is parsed is derived ----------

  lemma SliceSplits(t: seq<Token>, p: nat, q: nat, end: nat)
    requires p < q <= end <= |t|
    ensures t[p..end] == [t[p]] + (t[p + 1..q] + t[q..end])
  {
  }

  lemma {:induction false} ExprIsDerived(t: seq<Token>, p: nat) returns (e: ExprTree)
    requires p <= |t| && ParseExpr(t, p).Ok?
    ensures ExprYield(e) == t[p..ParseExpr(t, p).pos] && ExprNode(e) == ParseExpr(t, p).node
    decreases |t| - p, 5
  {
    var a := AndIsDerived(t, p);
    var q := ParseAnd(t, p).pos;
    e := OrsAreDerived(t, q, a, [AndNode(a)]);
    assert [AndNode(a)][..0] == [];
    assert t[p..q] + t[q..ParseExpr(t, p).pos] == t[p..ParseExpr(t, p).pos];
  }

  /** The loop of expr, entered with a last operand a. */
  lemma {:induction false} OrsAreDerived(t: seq<Token>, p: nat, a: AndTree, operands: seq<Node>) returns (e: ExprTree)
    requires p <= |t| && operands != [] && operands[|operands| - 1] == AndNode(a) && MoreOr(t, p, operands).Ok?
    ensures
      var r := MoreOr(t, p, operands);
      ExprYield(e) == AndYield(a) + t[p..r.pos] && r.node == Join(Disjunction, operands[..|operands| - 1] + ExprOperands(e))
    decreases |t| - p, 4
  {
    hide ParseAnd, AndNode, AndYield, Join;
    if p < |t| && t[p] == Kw(OR) {
      var b := AndIsDerived(t, p + 1);
      var q := ParseAnd(t, p + 1).pos;
      var more := operands + [AndNode(b)];
      var rest := OrsAreDerived(t, q, b, more);
      e := Or(a, rest);
      var end := MoreOr(t, p, operands).pos;
      SliceSplits(t, p, q, end);
      assert more[..|more| - 1] == operands == operands[..|operands| - 1] + [AndNode(a)];
      assert operands + ExprOperands(rest) == operands[..|operands| - 1] + ExprOperands(e);
    } else {
      e := Single(a);
      assert operands[..|operands| - 1] + [AndNode(a)] == operands;
    }
  }

  lemma {:induction false} AndIsDerived(t: seq<Token>, p: nat) returns (a: AndTree)
    requires p <= |t| && ParseAnd(t, p).Ok?
    ensures AndYield(a) == t[p..ParseAnd(t, p).pos] && AndNode(a) == ParseAnd(t, p).node
    decreases |t| - p, 3
  {
    var u := UnaryIsDerived(t, p);
    var q := ParseUnary(t, p).pos;
    a := AndsAreDerived(t, q, u, [UnaryNode(u)]);
    assert [UnaryNode(u)][..0] == [];
    assert t[p..q] + t[q..ParseAnd(t, p).pos] == t[p..ParseAnd(t, p).pos];
  }

  lemma {:induction false} AndsAreDerived(t: seq<Token>, p: nat, u: UnaryTree, operands: seq<Node>) returns (a: AndTree)
    requires p <= |t| && operands != [] && operands[|operands| - 1] == UnaryNode(u) && MoreAnd(t, p, operands).Ok?
    ensures
      var r := MoreAnd(t, p, operands);
      AndYield(a) == UnaryYield(u) + t[p..r.pos] && r.node == Join(Conjunction, operands[..|operands| - 1] + AndOperands(a))
    decreases |t| - p, 2
  {
    hide ParseUnary, UnaryNode, UnaryYield, Join;
    if p < |t| && t[p] == Kw(AND) {
      var v := UnaryIsDerived(t, p + 1);
      var q := ParseUnary(t, p + 1).pos;
      var more := operands + [UnaryNode(v)];
      var rest := AndsAreDerived(t, q, v, more);
      a := And(u, rest);
      var end := MoreAnd(t, p, operands).pos;
      SliceSplits(t, p, q, end);
      assert more[..|more| - 1] == operands == operands[..|operands| - 1] + [UnaryNode(u)];
      assert operands + AndOperands(rest) == operands[..|operands| - 1] + AndOperands(a);
    } else {
      a := Sole(u);
      assert operands[..|operands| - 1] + [UnaryNode(u)] == operands;
    }
  }

  lemma {:induction false} UnaryIsDerived(t: seq<Token>, p: nat) returns (u: UnaryTree)
    requires p <= |t| && ParseUnary(t, p).Ok?
    ensures UnaryYield(u) == t[p..ParseUnary(t, p).pos] && UnaryNode(u) == ParseUnary(t, p).node
    decreases |t| - p, 1
  {
    if t[p] == Kw(NOT) {
      var v := UnaryIsDerived(t, p + 1);
      u := Negated(v);
    } else if t[p] == LParen {
      var e := ExprIsDerived(t, p + 1);
      var q := ParseExpr(t, p + 1).pos;
      u := Parens(e);
      assert t[p..q + 1] == [LParen] + t[p + 1..q] + [RParen];
    } else {
      u := Compare(t[p].name, t[p + 1].op, t[p + 2]);
    }
  }

  // ---------- what is derived is parsed ----------

  /** The tokens s stand in t from position p on. */
  predicate At(t: seq<Token>, p: nat, s: seq<Token>) {
    p + |s| <= |t| && t[p..p + |s|] == s
  }

  predicate NextIs(t: seq<Token>, p: nat, keyword: Keyword) {
    p < |t| && t[p] == Kw(keyword)
  }

  lemma AtParts(t: seq<Token>, p: nat, s: seq<Token>, x: Token, rest: seq<Token>)
    requires At(t, p, s + [x] + rest)
    ensures At(t, p, s) && p + |s| < |t| && t[p + |s|] == x && At(t, p + |s| + 1, rest)
  {
    var whole := s + [x] + rest;
    assert whole == t[p..p + |whole|];
    assert s == whole[..|s|] && x == whole[|s|] && rest == whole[|s| + 1..];
  }

  lemma {:induction false} ExprIsParsed(t: seq<Token>, p: nat, e: ExprTree)
    requires At(t, p, ExprYield(e)) && !NextIs(t, p + |ExprYield(e)|, OR) && !NextIs(t, p + |ExprYield(e)|, AND)
    ensures ParseExpr(t, p) == Ok(ExprNode(e), p + |ExprYield(e)|)
    decreases e, 1
  {
    OrsAreParsed(t, p, e, []);
    hide ParseAnd, MoreOr, ExprYield, ExprOperands;
    assert [] + ExprOperands(e) == ExprOperands(e) && forall n: Node :: [] + [n] == [n];
  }

  /** With some operands already read, the loop reads the rest of the list. */
  lemma {:induction false} OrsAreParsed(t: seq<Token>, p: nat, e: ExprTree, operands: seq<Node>)
    requires At(t, p, ExprYield(e)) && !NextIs(t, p + |ExprYield(e)|, OR) && !NextIs(t, p + |ExprYield(e)|, AND)
    ensures ParseAnd(t, p).Ok?
    ensures MoreOr(t, ParseAnd(t, p).pos, operands + [ParseAnd(t, p).node])
         == Ok(Join(Disjunction, operands + ExprOperands(e)), p + |ExprYield(e)|)
    decreases e, 0
  {
    hide ParseAnd, AndNode, AndYield, Join;
    match e
    case Single(a) =>
      AndIsParsed(t, p, a);
    case Or(a, rest) =>
      AtParts(t, p, AndYield(a), Kw(OR), ExprYield(rest));
      AndIsParsed(t, p, a);
      OrsAreParsed(t, p + |AndYield(a)| + 1, rest, operands + [AndNode(a)]);
      assert operands + [AndNode(a)] + ExprOperands(rest) == operands + ExprOperands(e);
  }

  lemma {:induction false} AndIsParsed(t: seq<Token>, p: nat, a: AndTree)
    requires At(t, p, AndYield(a)) && !NextIs(t, p + |AndYield(a)|, AND)
    ensures ParseAnd(t, p) == Ok(AndNode(a), p + |AndYield(a)|)
    decreases a, 1
  {
    AndsAreParsed(t, p, a, []);
    hide ParseUnary, MoreAnd, AndYield, AndOperands;
    assert [] + AndOperands(a) == AndOperands(a) && forall n: Node :: [] + [n] == [n];
  }

  lemma {:induction false} AndsAreParsed(t: seq<Token>, p: nat, a: AndTree, operands: seq<Node>)
    requires At(t, p, AndYield(a)) && !NextIs(t, p + |AndYield(a)|, AND)
    ensures ParseUnary(t, p).Ok?
    ensures MoreAnd(t, ParseUnary(t, p).pos, operands + [ParseUnary(t, p).node])
         == Ok(Join(Conjunction, operands + AndOperands(a)), p + |AndYield(a)|)
    decreases a, 0
  {
    hide ParseUnary, UnaryNode, UnaryYield, Join;
    match a
    case Sole(u) =>
      UnaryIsParsed(t, p, u);
    case And(u, rest) =>
      AtParts(t, p, UnaryYield(u), Kw(AND), AndYield(rest));
      UnaryIsParsed(t, p, u);
      AndsAreParsed(t, p + |UnaryYield(u)| + 1, rest, operands + [UnaryNode(u)]);
      assert operands + [UnaryNode(u)] + AndOperands(rest) == operands + AndOperands(a);
  }

  lemma {:induction false} UnaryIsParsed(t: seq<Token>, p: nat, u: UnaryTree)
    requires At(t, p, UnaryYield(u))
    ensures ParseUnary(t, p) == Ok(UnaryNode(u), p + |UnaryYield(u)|)
    decreases u, 0
  {
    assert t[p] == UnaryYield(u)[0];
    match u
    case Negated(v) =>
      AtParts(t, p, [], Kw(NOT), UnaryYield(v));
      UnaryIsParsed(t, p + 1, v);
    case Parens(e) =>
      assert [LParen] + ExprYield(e) + [RParen] == [] + [LParen] + (ExprYield(e) + [RParen]);
      AtParts(t, p, [], LParen, ExprYield(e) + [RParen]);
      assert ExprYield(e) + [RParen] == ExprYield(e) + [RParen] + [];
      AtParts(t, p + 1, ExprYield(e), RParen, []);
      ExprIsParsed(t, p + 1, e);
    case Compare(name, op, literal) =>
      assert t[p + 1] == UnaryYield(u)[1] && t[p + 2] == UnaryYield(u)[2];
  }

  /** On every token list the parser succeeds exactly when the grammar derives it, with the derived tree. */
  lemma ParserMatchesGrammar(t: seq<Token>, node: Node)
    ensures ParseAll(t) == Some(node) <==> Derives(t, node)
  {
    if ParseAll(t) == Some(node) {
      var e := ExprIsDerived(t, 0);
      assert t[0..|t|] == t;
      assert ExprYield(e) == t && ExprNode(e) == node;
    }
    if Derives(t, node) {
      var e :| ExprYield(e) == t && ExprNode(e) == node;
      assert t[0..|t|] == t;
      ExprIsParsed(t, 0, e);
    }
  }

  // ---------- printing ----------

  /** The trees the parser can produce: real lists of operands, unqualified columns, literals with a token. */
  predicate WellFormed(n: Node) {
    match n
    case Comparison(column, _, literal) => '.' !in column && !literal.Other?
    case Logical(_, operands) => |operands| >= 2 && forall i | 0 <= i < |operands| :: WellFormed(operands[i])
    case Not(m) => WellFormed(m)
  }

  /** Printing puts parentheses only where NOT, AND and OR would not bind that way anyhow. */
  function ExprOf(n: Node): ExprTree
    requires WellFormed(n)
    decreases n, 3, 0
  {
    if n.Logical? && n.junction.Disjunction? then OrList(n, 0) else Single(AndOf(n))
  }

  function OrList(n: Node, i: nat): ExprTree
    requires WellFormed(n) && n.Logical? && i < |n.operands|
    decreases n, 0, |n.operands| - i
  {
    if i == |n.operands| - 1 then Single(AndOf(n.operands[i])) else Or(AndOf(n.operands[i]), OrList(n, i + 1))
  }

  function AndOf(n: Node): AndTree
    requires WellFormed(n)
    decreases n, 2, 0
  {
    if n.Logical? && n.junction.Conjunction? then AndList(n, 0) else Sole(UnaryOf(n))
  }

  function AndList(n: Node, i: nat): AndTree
    requires WellFormed(n) && n.Logical? && i < |n.operands|
    decreases n, 0, |n.operands| - i
  {
    if i == |n.operands| - 1 then Sole(UnaryOf(n.operands[i])) else And(UnaryOf(n.operands[i]), AndList(n, i + 1))
  }

  /** Parentheses around every AND or OR in operand position of NOT, AND, or (for OR) OR. */
  function UnaryOf(n: Node): UnaryTree
    requires WellFormed(n)
    decreases n, 1, 0
  {
    match n
    case Comparison(column, op, literal) => Compare(column, op, TokenOf(literal))
    case Not(m) => Negated(UnaryOf(m))
    case Logical(Disjunction, operands) => Parens(OrList(n, 0))
    case Logical(Conjunction, operands) => Parens(Single(AndList(n, 0)))
  }

  function Show(n: Node): seq<Token>
    requires WellFormed(n)
  {
    ExprYield(ExprOf(n))
  }

  lemma {:induction false} ExprOfNode(n: Node)
    requires WellFormed(n)
    ensures ExprNode(ExprOf(n)) == n
    decreases n, 3, 0
  {
    if n.Logical? && n.junction.Disjunction? {
      OrListOperands(n, 0);
    } else {
      AndOfNode(n);
    }
  }

  lemma {:induction false} OrListOperands(n: Node, i: nat)
    requires WellFormed(n) && n.Logical? && i < |n.operands|
    ensures ExprOperands(OrList(n, i)) == n.operands[i..]
    decreases n, 0, |n.operands| - i
  {
    AndOfNode(n.operands[i]);
    if i < |n.operands| - 1 {
      OrListOperands(n, i + 1);
    }
  }

  lemma {:induction false} AndOfNode(n: Node)
    requires WellFormed(n)
    ensures AndNode(AndOf(n)) == n
    decreases n, 2, 0
  {
    if n.Logical? && n.junction.Conjunction? {
      AndListOperands(n, 0);
    } else {
      UnaryOfNode(n);
    }
  }

  lemma {:induction false} AndListOperands(n: Node, i: nat)
    requires WellFormed(n) && n.Logical? && i < |n.operands|
    ensures AndOperands(AndList(n, i)) == n.operands[i..]
    decreases n, 0, |n.operands| - i
  {
    UnaryOfNode(n.operands[i]);
    if i < |n.operands| - 1 {
      AndListOperands(n, i + 1);
    }
  }

  lemma {:induction false} UnaryOfNode(n: Node)
    requires WellFormed(n)
    ensures UnaryNode(UnaryOf(n)) == n
    decreases n, 1, 0
  {
    match n
    case Comparison(_, _, _) =>
    case Not(m) => UnaryOfNode(m);
    case Logical(Disjunction, _) => OrListOperands(n, 0);
    case Logical(Conjunction, _) =>
      AndListOperands(n, 0);
      assert ExprOperands(Single(AndList(n, 0))) == [AndNode(AndList(n, 0))];
  }

  /** Parsing the printed tokens gives the tree back. */
  lemma PrintThenParse(n: Node)
    requires WellFormed(n)
    ensures ParseAll(Show(n)) == Some(n)
  {
    ExprOfNode(n);
    ParserMatchesGrammar(Show(n), n);
  }

  lemma {:induction false} ExprIsWellFormed(e: ExprTree)
    ensures forall i | 0 <= i < |ExprOperands(e)| :: WellFormed(ExprOperands(e)[i])
    ensures WellFormed(ExprNode(e))
    decreases e
  {
    match e
    case Single(a) => AndIsWellFormed(a);
    case Or(a, rest) =>
      AndIsWellFormed(a);
      ExprIsWellFormed(rest);
  }

  lemma {:induction false} AndIsWellFormed(a: AndTree)
    ensures forall i | 0 <= i < |AndOperands(a)| :: WellFormed(AndOperands(a)[i])
    ensures WellFormed(AndNode(a))
    decreases a
  {
    match a
    case Sole(u) => UnaryIsWellFormed(u);
    case And(u, rest) =>
      UnaryIsWellFormed(u);
      AndIsWellFormed(rest);
  }

  lemma {:induction false} UnaryIsWellFormed(u: UnaryTree)
    ensures WellFormed(UnaryNode(u))
    decreases u
  {
    match u
    case Negated(v) => UnaryIsWellFormed(v);
    case Parens(e) => ExprIsWellFormed(e);
    case Compare(_, _, _) =>
  }

  /** The trees the parser can produce are exactly the well-formed ones. */
  lemma ParserImage(n: Node)
    ensures (exists t :: ParseAll(t) == Some(n)) <==> WellFormed(n)
  {
    if t :| ParseAll(t) == Some(n) {
      ParserMatchesGrammar(t, n);
      var e :| ExprYield(e) == t && ExprNode(e) == n;
      ExprIsWellFormed(e);
    }
    if WellFormed(n) {
      PrintThenParse(n);
    }
  }

  /** NOT binds tighter than AND, and AND tighter than OR, for any operands. */
  lemma BindingStrength(a: UnaryTree, b: UnaryTree, c: UnaryTree)
    ensures ParseAll([Kw(NOT)] + UnaryYield(a) + [Kw(AND)] + UnaryYield(b) + [Kw(OR)] + UnaryYield(c))
         == Some(Logical(Disjunction, [Logical(Conjunction, [Not(UnaryNode(a)), UnaryNode(b)]), UnaryNode(c)]))
    ensures ParseAll(UnaryYield(c) + [Kw(OR)] + [Kw(NOT)] + UnaryYield(a) + [Kw(AND)] + UnaryYield(b))
         == Some(Logical(Disjunction, [UnaryNode(c), Logical(Conjunction, [Not(UnaryNode(a)), UnaryNode(b)])]))
  {
    var left, right := And(Negated(a), Sole(b)), Sole(c);
    ConjunctionTree(a, b);
    OneOperand(c);
    TwoDisjuncts(left, right);
    TwoDisjuncts(right, left);
    hide UnaryYield, UnaryNode, AndYield, AndNode, ParseAll;
    assert AndYield(right) + [Kw(OR)] + AndYield(left)
        == UnaryYield(c) + [Kw(OR)] + [Kw(NOT)] + UnaryYield(a) + [Kw(AND)] + UnaryYield(b);
  }

  lemma TwoDisjuncts(x: AndTree, y: AndTree)
    ensures ParseAll(AndYield(x) + [Kw(OR)] + AndYield(y)) == Some(Logical(Disjunction, [AndNode(x), AndNode(y)]))
  {
    hide AndYield, AndNode, ParseAll;
    var e := Or(x, Single(y));
    assert ExprOperands(Single(y)) == [AndNode(y)] && ExprYield(Single(y)) == AndYield(y);
    assert ExprOperands(e) == [AndNode(x), AndNode(y)];
    ParserMatchesGrammar(ExprYield(e), ExprNode(e));
  }

  lemma ConjunctionTree(a: UnaryTree, b: UnaryTree)
    ensures
      var and := And(Negated(a), Sole(b));
      && AndYield(and) == [Kw(NOT)] + UnaryYield(a) + [Kw(AND)] + UnaryYield(b)
      && AndNode(and) == Logical(Conjunction, [Not(UnaryNode(a)), UnaryNode(b)])
  {
    NegatedTree(a);
    hide UnaryYield, UnaryNode;
    assert AndOperands(Sole(b)) == [UnaryNode(b)] && AndYield(Sole(b)) == UnaryYield(b);
    assert AndOperands(And(Negated(a), Sole(b))) == [Not(UnaryNode(a)), UnaryNode(b)];
  }

  lemma OneOperand(c: UnaryTree)
    ensures AndYield(Sole(c)) == UnaryYield(c) && AndNode(Sole(c)) == UnaryNode(c)
  {
    hide UnaryYield, UnaryNode;
    assert AndOperands(Sole(c)) == [UnaryNode(c)];
  }

  lemma NegatedTree(a: UnaryTree)
    ensures UnaryYield(Negated(a)) == [Kw(NOT)] + UnaryYield(a) && UnaryNode(Negated(a)) == Not(UnaryNode(a))
  {
  }

  // ---------- the cursor ----------

  /** The parser object: None from a method is a raised PredicateError. */
  class Parser {
    const tokens: seq<Token>
    var pos: nat

    constructor (tokens: seq<Token>)
      ensures this.tokens == tokens && pos == 0
    {
      this.tokens := tokens;
      pos := 0;
    }

    ghost predicate Follows(from: nat, parsed: Parsed, node: Option<Node>)
      reads this
    {
      match parsed
      case Fail => node == None
      case Ok(n, q) => node == Some(n) && pos == q
    }

    function Peek(): Option<Token>
      reads this
    {
      if pos < |tokens| then Some(tokens[pos]) else None
    }

    method Take() returns (token: Option<Token>)
      modifies this
      ensures token == old(Peek())
      ensures pos == if token.Some? then old(pos) + 1 else old(pos)
    {
      token := Peek();
      if token.Some? {
        pos := pos + 1;
      }
    }

    method Parse() returns (node: Option<Node>)
      requires pos == 0
      modifies this
      ensures node == ParseAll(tokens)
    {
      node := Expr();
      if node.Some? && Peek().Some? {
        node := None;
      }
    }

    method Expr() returns (node: Option<Node>)
      requires pos <= |tokens|
      modifies this
      ensures Follows(old(pos), ParseExpr(tokens, old(pos)), node)
      decreases |tokens| - pos, 3
    {
      var first := AndExpr();
      if first.None? {
        return None;
      }
      var operands := [first.value];
      while Peek() == Some(Kw(OR))
        invariant old(pos) < pos <= |tokens| && operands != []
        invariant MoreOr(tokens, pos, operands) == ParseExpr(tokens, old(pos))
        decreases |tokens| - pos
      {
        var _ := Take();
        var next := AndExpr();
        if next.None? {
          return None;
        }
        operands := operands + [next.value];
      }
      return Some(if |operands| == 1 then operands[0] else Logical(Disjunction, operands));
    }

    method AndExpr() returns (node: Option<Node>)
      requires pos <= |tokens|
      modifies this
      ensures Follows(old(pos), ParseAnd(tokens, old(pos)), node)
      decreases |tokens| - pos, 2
    {
      var first := Unary();
      if first.None? {
        return None;
      }
      var operands := [first.value];
      while Peek() == Some(Kw(AND))
        invariant old(pos) < pos <= |tokens| && operands != []
        invariant MoreAnd(tokens, pos, operands) == ParseAnd(tokens, old(pos))
        decreases |tokens| - pos
      {
        var _ := Take();
        var next := Unary();
        if next.None? {
          return None;
        }
        operands := operands + [next.value];
      }
      return Some(if |operands| == 1 then operands[0] else Logical(Conjunction, operands));
    }

    method Unary() returns (node: Option<Node>)
      requires pos <= |tokens|
      modifies this
      ensures Follows(old(pos), ParseUnary(tokens, old(pos)), node)
      decreases |tokens| - pos, 1
    {
      var token := Peek();
      if token == Some(Kw(NOT)) {
        var _ := Take();
        var inner := Unary();
        return if inner.Some? then Some(Not(inner.value)) else None;
      }
      if token == Some(LParen) {
        var _ := Take();
        node := Expr();
        if node.None? || Peek().None? {
          return None;
        }
        var close := Take();
        return if close == Some(RParen) then node else None;
      }
      node := ComparisonTerm();
    }

    method ComparisonTerm() returns (node: Option<Node>)
      requires pos <= |tokens|
      modifies this
      ensures Follows(old(pos), ParseComparison(tokens, old(pos)), node)
    {
      var column := Take();
      if column.None? || !column.value.Word? {
        return None;
      }
      var op := Take();
      if op.None? || !op.value.Op? {
        return None;
      }
      var raw := Take();
      if raw.None? {
        return None;
      }
      var literal := LiteralOf(raw.value);
      if literal.None? {
        return None;
      }
      return Some(Comparison(Unqualified(column.value.name), op.value.op, literal.value));
    }
  }

  /** parse_predicate, after tokenizing: an empty clause is an error of its own. */
  method ParsePredicate(tokens: seq<Token>) returns (node: Option<Node>)
    ensures node == ParseAll(tokens)
    ensures forall n :: node == Some(n) <==> Derives(tokens, n)
  {
    forall n
      ensures ParseAll(tokens) == Some(n) <==> Derives(tokens, n)
    {
      ParserMatchesGrammar(tokens, n);
    }
    if tokens == [] {
      return None;
    }
    var parser := new Parser(tokens);
    node := parser.Parse();
  }

  /** One comparison, for every kind of literal; what the words TRUE, FALSE and NULL stand for. */
  lemma ComparisonParses(name: string, op: CompareOp, inner: string, n: real)
    ensures ParseAll([Word(name), Op(op), Kw(TRUE)]) == Some(Comparison(Unqualified(name), op, Bool(true)))
    ensures ParseAll([Word(name), Op(op), Kw(FALSE)]) == Some(Comparison(Unqualified(name), op, Bool(false)))
    ensures ParseAll([Word(name), Op(op), Kw(NULL)]) == Some(Comparison(Unqualified(name), op, Null))
    ensures ParseAll([Word(name), Op(op), Number(n)]) == Some(Comparison(Unqualified(name), op, Num(n)))
    ensures ParseAll([Word(name), Op(op), Str(inner)]) == Some(Comparison(Unqualified(name), op, Text(Unescape(inner))))
  {
    OneComparison(name, op, Kw(TRUE));
    OneComparison(name, op, Kw(FALSE));
    OneComparison(name, op, Kw(NULL));
    OneComparison(name, op, Number(n));
    OneComparison(name, op, Str(inner));
    hide ParseAll;
  }

  lemma OneComparison(name: string, op: CompareOp, literal: Token)
    requires LiteralOf(literal).Some?
    ensures ParseAll([Word(name), Op(op), literal]) == Some(Comparison(Unqualified(name), op, LiteralOf(literal).value))
  {
    var t := [Word(name), Op(op), literal];
    hide LiteralOf, Unqualified;
    assert ParseUnary(t, 0) == ParseComparison(t, 0) == Ok(Comparison(Unqualified(name), op, LiteralOf(literal).value), 3);
    assert ParseAnd(t, 0) == MoreAnd(t, 3, [ParseUnary(t, 0).node]);
    assert ParseExpr(t, 0) == MoreOr(t, 3, [ParseUnary(t, 0).node]);
  }

  // ---------- evaluation ----------

  type Row = map<string, Value>

  /** A number for the comparison operators: Python compares truth values as 0 and 1. */
  function AsNumber(v: Value): Option<real> {
    match v
    case Bool(b) => Some(if b then 1.0 else 0.0)
    case Num(n) => Some(n)
    case _ => None
  }

  /** The two values have an order between them; otherwise `<` raises TypeError. */
  predicate Comparable(a: Value, b: Value) {
    (a.Text? && b.Text?) || (AsNumber(a).Some? && AsNumber(b).Some?)
  }

  predicate Equal(a: Value, b: Value) {
    if AsNumber(a).Some? && AsNumber(b).Some? then AsNumber(a) == AsNumber(b) else a == b
  }

  predicate Less(a: Value, b: Value)
    requires Comparable(a, b)
  {
    if a.Text? then TextLess(a.s, b.s) else AsNumber(a).value < AsNumber(b).value
  }

  function Cell(row: Row, column: string): Value {
    if column in row then row[column] else Null
  }

  predicate Holds(op: CompareOp, value: Value, literal: Value) {
    if value.Null? || literal.Null? then false
    else
      match op
      case Eq => Equal(value, literal)
      case Ne => !Equal(value, literal)
      case NeAngle => !Equal(value, literal)
      case Lt => Comparable(value, literal) && Less(value, literal)
      case Le => Comparable(value, literal) && (Less(value, literal) || Equal(value, literal))
      case Gt => Comparable(value, literal) && Less(literal, value)
      case Ge => Comparable(value, literal) && (Less(literal, value) || Equal(value, literal))
  }

  predicate Evaluate(n: Node, row: Row) {
    match n
    case Comparison(column, op, literal) => Holds(op, Cell(row, column), literal)
    case Logical(Conjunction, operands) => forall i | 0 <= i < |operands| :: Evaluate(operands[i], row)
    case Logical(Disjunction, operands) => exists i | 0 <= i < |operands| :: Evaluate(operands[i], row)
    case Not(m) => !Evaluate(m, row)
  }

  function Opposite(op: CompareOp): CompareOp {
    match op
    case Eq => Ne
    case Ne => Eq
    case NeAngle => Eq
    case Lt => Ge
    case Le => Gt
    case Gt => Le
    case Ge => Lt
  }

  /** The number a value counts as in a comparison, truth values as 0 and 1. */
  ghost predicate CountsAs(v: Value, x: real) {
    v == Num(x) || (v == Bool(false) && x == 0.0) || (v == Bool(true) && x == 1.0)
  }

  lemma NumbersCompare(a: Value, b: Value, x: real, y: real)
    requires CountsAs(a, x) && CountsAs(b, y)
    ensures Holds(Eq, a, b) <==> x == y
    ensures (Holds(Ne, a, b) <==> x != y) && (Holds(NeAngle, a, b) <==> x != y)
    ensures (Holds(Lt, a, b) <==> x < y) && (Holds(Le, a, b) <==> x <= y)
    ensures (Holds(Gt, a, b) <==> x > y) && (Holds(Ge, a, b) <==> x >= y)
  {
  }

  lemma TextsCompare(a: string, b: string)
    ensures Holds(Eq, Text(a), Text(b)) <==> a == b
    ensures (Holds(Ne, Text(a), Text(b)) <==> a != b) && (Holds(NeAngle, Text(a), Text(b)) <==> a != b)
    ensures (Holds(Lt, Text(a), Text(b)) <==> ComesBefore(a, b)) && (Holds(Gt, Text(a), Text(b)) <==> ComesBefore(b, a))
    ensures (Holds(Le, Text(a), Text(b)) <==> a == b || ComesBefore(a, b)) && (Holds(Ge, Text(a), Text(b)) <==> a == b || ComesBefore(b, a))
  {
    TextLessIff(a, b);
    TextLessIff(b, a);
  }

  /** Nothing compares with NULL, and a column the row lacks is NULL. */
  lemma NullFails(column: string, op: CompareOp, literal: Value, row: Row)
    ensures column !in row || row[column].Null? || literal.Null? ==> !Evaluate(Comparison(column, op, literal), row)
    ensures column in row ==> (Evaluate(Comparison(column, op, literal), row) <==> Holds(op, row[column], literal))
  {
  }

  /** AND needs every operand, OR some operand, NOT the opposite. */
  lemma Connectives(a: Node, b: Node, more: seq<Node>, row: Row)
    ensures Evaluate(Not(a), row) <==> !Evaluate(a, row)
    ensures Evaluate(Logical(Conjunction, [a, b]), row) <==> Evaluate(a, row) && Evaluate(b, row)
    ensures Evaluate(Logical(Disjunction, [a, b]), row) <==> Evaluate(a, row) || Evaluate(b, row)
    ensures Evaluate(Logical(Conjunction, more + [a]), row) <==> Evaluate(Logical(Conjunction, more), row) && Evaluate(a, row)
    ensures Evaluate(Logical(Disjunction, more + [a]), row) <==> Evaluate(Logical(Disjunction, more), row) || Evaluate(a, row)
  {
    assert [a, b][0] == a && [a, b][1] == b;
    assert forall i | 0 <= i < |more| :: (more + [a])[i] == more[i];
    assert (more + [a])[|more|] == a;
  }

  /** The logic is two-valued: NOT agrees with the opposite operator exactly when there is something to compare. */
  lemma NotIsOppositeIff(column: string, op: CompareOp, literal: Value, row: Row)
    ensures
      var value := Cell(row, column);
      (Evaluate(Not(Comparison(column, op, literal)), row) == Evaluate(Comparison(column, Opposite(op), literal), row))
      <==> !value.Null? && !literal.Null? && (op.Eq? || op.Ne? || op.NeAngle? || Comparable(value, literal))
  {
    var value := Cell(row, column);
    if value.Text? && literal.Text? {
      TextTrichotomy(value.s, literal.s);
    }
  }

  /** A comparison of mismatched types is false, as documented, except for the two inequality operators. */
  lemma MismatchIsFalseIff(op: CompareOp, value: Value, literal: Value)
    requires !value.Null? && !literal.Null? && !literal.Other? && !Comparable(value, literal)
    ensures Holds(op, value, literal) <==> op.Ne? || op.NeAngle?
  {
  }

  /** NOT distributes over AND and OR. */
  lemma DeMorgan(junction: Junction, operands: seq<Node>, row: Row)
    ensures
      var other := if junction.Conjunction? then Disjunction else Conjunction;
      Evaluate(Not(Logical(junction, operands)), row)
        == Evaluate(Logical(other, seq(|operands|, i requires 0 <= i < |operands| => Not(operands[i]))), row)
  {
    var negated := seq(|operands|, i requires 0 <= i < |operands| => Not(operands[i]));
    assert forall i | 0 <= i < |operands| :: Evaluate(negated[i], row) <==> !Evaluate(operands[i], row);
  }
}
