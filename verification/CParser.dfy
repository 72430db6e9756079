/** The C parser for expressions and type names, one function per grammar rule.

    Binary operators are resolved by shifting and reducing over an explicit stack
    with the declared precedence levels; the other rules need one token of
    lookahead. Every function returns the tokens it did not consume. */
module CParser {
  import opened CSyntax

  /** A declarator: its name, if it has one, and its modifiers. */
  datatype Chain = Chain(name: seq<string>, mods: seq<Modifier>)

  datatype Specs = Specs(storage: seq<string>, quals: seq<string>, names: seq<Word>)

  /** Operands waiting for their right-hand side, bottom of the stack first. */
  type Stack = seq<(Expr, BinOp)>

  // ----- expression and its tail rules -----

  function ParseExpression(ts: seq<Token>): (r: Parsed<Expr>)
    ensures r.Got? ==> |r.rest| < |ts|
    decreases |ts|, 6
  {
    match ParseAssignment(ts)
    case Fail => Fail
    case Got(e, rest) => ExpressionTail(e, rest)
  }

  /** `expression COMMA assignment_expression`: a comma list on the left is extended. */
  function ExpressionTail(acc: Expr, ts: seq<Token>): (r: Parsed<Expr>)
    ensures r.Got? ==> |r.rest| <= |ts|
    decreases |ts|, 6
  {
    if !At(ts, TComma) then Got(acc, ts)
    else
      match ParseAssignment(ts[1..])
      case Fail => Fail
      case Got(e, rest) => ExpressionTail(Extend(acc, e), rest)
  }

  function Extend(acc: Expr, e: Expr): Expr {
    if acc.ExprList? then ExprList(acc.exprs + [e]) else ExprList([acc, e])
  }

  function ParseAssignment(ts: seq<Token>): (r: Parsed<Expr>)
    ensures r.Got? ==> |r.rest| < |ts|
    decreases |ts|, 5
  {
    match ParseUnary(ts)
    case Fail => Fail
    case Got(u, rest) => AssignmentTail(u, rest)
  }

  function AssignmentTail(u: Expr, ts: seq<Token>): (r: Parsed<Expr>)
    ensures r.Got? ==> |r.rest| <= |ts|
    decreases |ts|, 5
  {
    if ts != [] && ts[0].TAssign? then
      match ParseAssignment(ts[1..])
      case Fail => Fail
      case Got(v, rest) => Got(Assignment(ts[0].aop, u, v), rest)
    else ConditionalTail(BinaryTail([], u, ts))
  }

  function ParseConditional(ts: seq<Token>): (r: Parsed<Expr>)
    ensures r.Got? ==> |r.rest| < |ts|
    decreases |ts|, 5
  {
    match ParseUnary(ts)
    case Fail => Fail
    case Got(u, rest) => ConditionalTail(BinaryTail([], u, rest))
  }

  function ConditionalTail(cond: Parsed<Expr>): (r: Parsed<Expr>)
    ensures r.Got? ==> cond.Got? && |r.rest| <= |cond.rest|
    decreases if cond.Got? then |cond.rest| else 0, 4
  {
    if cond.Fail? || !At(cond.rest, TCondOp) then cond
    else
      match ParseExpression(cond.rest[1..])
      case Fail => Fail
      case Got(a, afterTrue) =>
        if !At(afterTrue, TColon) then Fail
        else
          match ParseConditional(afterTrue[1..])
          case Fail => Fail
          case Got(b, rest) => Got(TernaryOp(cond.value, a, b), rest)
  }

  // ----- binary operators: shift/reduce by precedence -----

  /** Reduce while the operator on top binds at least as tightly as `p`
      (all binary operators are declared left-associative). */
  function Reduce(stack: Stack, cur: Expr, p: int): (r: (Stack, Expr))
    ensures |r.0| <= |stack|
  {
    if stack != [] && Prec(stack[|stack| - 1].1) >= p then
      var top := stack[|stack| - 1];
      Reduce(stack[..|stack| - 1], BinaryOp(top.1, top.0, cur), p)
    else (stack, cur)
  }

  function BinaryTail(stack: Stack, cur: Expr, ts: seq<Token>): (r: Parsed<Expr>)
    ensures r.Got? ==> |r.rest| <= |ts|
    decreases |ts|, 3
  {
    if ts != [] && ts[0].TBin? then
      var (below, left) := Reduce(stack, cur, Prec(ts[0].op));
      match ParseUnary(ts[1..])
      case Fail => Fail
      case Got(u, rest) => BinaryTail(below + [(left, ts[0].op)], u, rest)
    else Got(Reduce(stack, cur, 0).1, ts)
  }

  // ----- unary, postfix, primary -----

  predicate IsPrefix(t: Token) {
    match t
    case TBin(op) => op == And || op == Times || op == Plus || op == Minus
    case TBitNot | TLogNot | TInc | TDec => true
    case _ => false
  }

  function UnaryOperator(t: Token): UnOp
    requires IsPrefix(t)
  {
    match t
    case TBin(op) => (match op case And => AddrOf case Times => Deref case Plus => Pos case _ => Neg)
    case TBitNot => BitNot
    case TLogNot => LogNot
    case TInc => PreInc
    case _ => PreDec
  }

  predicate StartsType(ts: seq<Token>) {
    ts != [] && (ts[0].TWord? || ts[0].TQual?)
  }

  predicate StartsUnary(ts: seq<Token>) {
    ts != [] && (|| ts[0].TId? || ts[0].TConst? || ts[0].TLParen? || ts[0].TSizeof? || ts[0].TAlignof?
                 || IsPrefix(ts[0]))
  }

  /** A parenthesised type name. */
  function ParseParenType(ts: seq<Token>): (r: Parsed<TypeName>)
    ensures r.Got? ==> |r.rest| < |ts|
    decreases |ts|, 1
  {
    if !(At(ts, TLParen) && StartsType(ts[1..])) then Fail
    else
      match ParseTypeName(ts[1..])
      case Fail => Fail
      case Got(t, rest) => if At(rest, TRParen) then Got(t, rest[1..]) else Fail
  }

  function ParseUnary(ts: seq<Token>): (r: Parsed<Expr>)
    ensures r.Got? ==> |r.rest| < |ts|
    decreases |ts|, 3
  {
    if ts == [] then Fail
    else if IsPrefix(ts[0]) then ParsePrefixed(UnaryOperator(ts[0]), ts[1..])
    else if ts[0] == TSizeof then ParseSizeof(ts[1..])
    else if ts[0] == TAlignof then ParseAlignof(ts[1..])
    else if ts[0] == TLParen && StartsType(ts[1..]) then ParseCast(ts)
    else ParsePostfix(ts)
  }

  function ParsePrefixed(op: UnOp, ts: seq<Token>): (r: Parsed<Expr>)
    ensures r.Got? ==> |r.rest| < |ts|
    decreases |ts|, 4
  {
    match ParseUnary(ts)
    case Fail => Fail
    case Got(u, rest) => Got(UnaryOp(op, u), rest)
  }

  /** After `sizeof ( type )` the table shifts whatever can start an operand, so
      `sizeof(int) * n` reads as the size of a cast. */
  function ParseSizeof(ts: seq<Token>): (r: Parsed<Expr>)
    ensures r.Got? ==> |r.rest| < |ts|
    decreases |ts|, 5
  {
    if At(ts, TLParen) && StartsType(ts[1..]) then
      match ParseParenType(ts)
      case Fail => Fail
      case Got(t, rest) =>
        if !StartsUnary(rest) then Got(TypeUnary(SizeofType, t), rest)
        else
          match ParseUnary(rest)
          case Fail => Fail
          case Got(u, rest') => Got(UnaryOp(Sizeof, Cast(t, u)), rest')
    else ParsePrefixed(Sizeof, ts)
  }

  function ParseAlignof(ts: seq<Token>): (r: Parsed<Expr>)
    ensures r.Got? ==> |r.rest| < |ts|
    decreases |ts|, 2
  {
    match ParseParenType(ts)
    case Fail => Fail
    case Got(t, rest) => Got(TypeUnary(AlignofType, t), rest)
  }

  function ParseCast(ts: seq<Token>): (r: Parsed<Expr>)
    ensures r.Got? ==> |r.rest| < |ts|
    decreases |ts|, 2
  {
    match ParseParenType(ts)
    case Fail => Fail
    case Got(t, rest) =>
      match ParseUnary(rest)
      case Fail => Fail
      case Got(u, rest') => Got(Cast(t, u), rest')
  }

  function ParsePostfix(ts: seq<Token>): (r: Parsed<Expr>)
    ensures r.Got? ==> |r.rest| < |ts|
    decreases |ts|, 2
  {
    match ParsePrimary(ts)
    case Fail => Fail
    case Got(e, rest) => PostfixTail(e, rest)
  }

  function ParsePrimary(ts: seq<Token>): (r: Parsed<Expr>)
    ensures r.Got? ==> |r.rest| < |ts|
    decreases |ts|, 1
  {
    if ts == [] then Fail
    else
      match ts[0]
      case TId(n) => Got(Id(n), ts[1..])
      case TConst(v) => Got(Constant(v), ts[1..])
      case TLParen =>
        (match ParseExpression(ts[1..])
         case Fail => Fail
         case Got(e, rest) => if At(rest, TRParen) then Got(e, rest[1..]) else Fail)
      case _ => Fail
  }

  function PostfixTail(acc: Expr, ts: seq<Token>): (r: Parsed<Expr>)
    ensures r.Got? ==> |r.rest| <= |ts|
    decreases |ts|, 1
  {
    if ts == [] then Got(acc, ts)
    else
      match ts[0]
      case TLBracket =>
        (match ParseExpression(ts[1..])
         case Fail => Fail
         case Got(s, rest) =>
           if At(rest, TRBracket) then PostfixTail(ArrayRef(acc, s), rest[1..]) else Fail)
      case TLParen =>
        if At(ts[1..], TRParen) then PostfixTail(FuncCall(acc, []), ts[2..])
        else
          (match ParseArguments(ts[1..])
           case Fail => Fail
           case Got(args, rest) =>
             if At(rest, TRParen) then PostfixTail(FuncCall(acc, args), rest[1..]) else Fail)
      case TPeriod =>
        if |ts| > 1 && ts[1].TId? then PostfixTail(StructRef(acc, false, ts[1].name), ts[2..]) else Fail
      case TArrow =>
        if |ts| > 1 && ts[1].TId? then PostfixTail(StructRef(acc, true, ts[1].name), ts[2..]) else Fail
      case TInc => PostfixTail(UnaryOp(PostInc, acc), ts[1..])
      case TDec => PostfixTail(UnaryOp(PostDec, acc), ts[1..])
      case _ => Got(acc, ts)
  }

  function ParseArguments(ts: seq<Token>): (r: Parsed<seq<Expr>>)
    ensures r.Got? ==> |r.rest| < |ts|
    decreases |ts|, 6
  {
    match ParseAssignment(ts)
    case Fail => Fail
    case Got(e, rest) =>
      if !At(rest, TComma) then Got([e], rest)
      else
        match ParseArguments(rest[1..])
        case Fail => Fail
        case Got(es, rest') => Got([e] + es, rest')
  }

  // ----- specifiers and type names -----

  /** Specifiers may come in any order, but a typedef name only as the first type word. */
  function ParseSpecs(acc: Specs, ts: seq<Token>): (r: (Specs, seq<Token>))
    ensures |r.1| <= |ts|
    decreases |ts|
  {
    if ts == [] then (acc, ts)
    else
      match ts[0]
      case TStorage(s) => ParseSpecs(acc.(storage := acc.storage + [s]), ts[1..])
      case TQual(q) => ParseSpecs(acc.(quals := acc.quals + [q]), ts[1..])
      case TWord(w) =>
        if w.Keyword? || acc.names == [] then ParseSpecs(acc.(names := acc.names + [w]), ts[1..])
        else (acc, ts)
      case _ => (acc, ts)
  }

  function ParseTypeName(ts: seq<Token>): (r: Parsed<TypeName>)
    ensures r.Got? ==> |r.rest| < |ts|
    decreases |ts|, 1
  {
    var (specs, afterSpecs) := ParseSpecs(Specs([], [], []), ts);
    if specs.names == [] || specs.storage != [] || |afterSpecs| >= |ts| then Fail
    else
      match ParseChain(afterSpecs)
      case Fail => Fail
      case Got(c, rest) => if c.name == [] then Got(TypeName(specs.quals, specs.names, c.mods), rest) else Fail
  }

  function ParseQuals(ts: seq<Token>): (r: (seq<string>, seq<Token>))
    ensures |r.1| <= |ts|
  {
    if ts != [] && ts[0].TQual? then
      var (qs, rest) := ParseQuals(ts[1..]);
      ([ts[0].text] + qs, rest)
    else ([], ts)
  }

  // ----- declarators -----

  /** `pointer`: the leftmost star is the innermost modifier. */
  function ParsePointers(ts: seq<Token>): (r: (seq<Modifier>, seq<Token>))
    ensures |r.1| <= |ts|
    decreases |ts|
  {
    if At(ts, TBin(Times)) then
      var (qs, afterQuals) := ParseQuals(ts[1..]);
      var (inner, rest) := ParsePointers(afterQuals);
      (inner + [Ptr(qs)], rest)
    else ([], ts)
  }

  predicate StartsDirect(ts: seq<Token>) {
    ts != [] && (ts[0].TId? || ts[0] == TLParen || ts[0] == TLBracket)
  }

  /** A declarator, an abstract declarator, or nothing. */
  function ParseChain(ts: seq<Token>): (r: Parsed<Chain>)
    ensures r.Got? ==> |r.rest| <= |ts|
    decreases |ts|, 4
  {
    var (pointers, afterPointers) := ParsePointers(ts);
    if !StartsDirect(afterPointers) then Got(Chain([], pointers), afterPointers)
    else
      match ParseDirect(afterPointers)
      case Fail => Fail
      case Got(c, rest) => Got(c.(mods := c.mods + pointers), rest)
  }

  /** After `(`, these tokens begin a nested declarator rather than parameters. */
  predicate StartsNested(ts: seq<Token>) {
    StartsDirect(ts) || At(ts, TBin(Times))
  }

  function ParseDirect(ts: seq<Token>): (r: Parsed<Chain>)
    ensures r.Got? ==> |r.rest| < |ts|
    decreases |ts|, 3
  {
    if ts == [] then Fail
    else
      match ts[0]
      case TId(n) => DirectTail(Chain([n], []), ts[1..])
      case TLBracket =>
        (match ParseFirstArray(ts[1..])
         case Fail => Fail
         case Got(m, rest) => DirectTail(Chain([], [m]), rest))
      case TLParen =>
        if StartsNested(ts[1..]) then
          (match ParseChain(ts[1..])
           case Fail => Fail
           case Got(c, rest) => if At(rest, TRParen) then DirectTail(c, rest[1..]) else Fail)
        else
          (match ParseArgs(ts[1..], false)
           case Fail => Fail
           case Got(m, rest) => DirectTail(Chain([], [m]), rest))
      case _ => Fail
  }

  function DirectTail(c: Chain, ts: seq<Token>): (r: Parsed<Chain>)
    ensures r.Got? ==> |r.rest| <= |ts|
    decreases |ts|, 3
  {
    if At(ts, TLBracket) then
      match (if c.name != [] then ParseNamedArray(ts[1..]) else ParseLaterArray(ts[1..]))
      case Fail => Fail
      case Got(m, rest) => DirectTail(c.(mods := c.mods + [m]), rest)
    else if At(ts, TLParen) then
      match ParseArgs(ts[1..], c.name != [])
      case Fail => Fail
      case Got(m, rest) => DirectTail(c.(mods := c.mods + [m]), rest)
    else Got(c, ts)
  }

  /** The end of an array suffix: an expression, then `]`. */
  function CloseSized(quals: seq<DimQual>, ts: seq<Token>): (r: Parsed<Modifier>)
    ensures r.Got? ==> |r.rest| < |ts|
    decreases |ts|, 6
  {
    match ParseAssignment(ts)
    case Fail => Fail
    case Got(e, rest) => if At(rest, TRBracket) then Got(Array(quals, Size(e)), rest[1..]) else Fail
  }

  function AsDimQuals(qs: seq<string>): seq<DimQual> {
    seq(|qs|, i requires 0 <= i < |qs| => Qualifier(qs[i]))
  }

  /** `[static quals e]`, `[quals static e]`, `[quals]` or `[quals e]`. */
  function ParseQualifiedArray(ts: seq<Token>): (r: Parsed<Modifier>)
    ensures r.Got? ==> |r.rest| < |ts|
    decreases |ts|, 7
  {
    if At(ts, TStatic) then
      var (qs, rest) := ParseQuals(ts[1..]);
      CloseSized([Static] + AsDimQuals(qs), rest)
    else
      var (qs, rest) := ParseQuals(ts);
      if At(rest, TStatic) then CloseSized(AsDimQuals(qs) + [Static], rest[1..])
      else if At(rest, TRBracket) then Got(Array(AsDimQuals(qs), NoDim), rest[1..])
      else CloseSized(AsDimQuals(qs), rest)
  }

  predicate AtStar(ts: seq<Token>) {
    At(ts, TBin(Times)) && At(ts[1..], TRBracket)
  }

  /** An array suffix on a named declarator. */
  function ParseNamedArray(ts: seq<Token>): (r: Parsed<Modifier>)
    ensures r.Got? ==> |r.rest| < |ts|
    decreases |ts|, 8
  {
    var (qs, rest) := ParseQuals(ts);
    if AtStar(rest) then Got(Array(AsDimQuals(qs), Star), rest[2..])
    else ParseQualifiedArray(ts)
  }

  /** The first array suffix of an abstract declarator. For `[*]` the rule takes
      the text of its third symbol, the closing bracket. */
  function ParseFirstArray(ts: seq<Token>): (r: Parsed<Modifier>)
    ensures r.Got? ==> |r.rest| < |ts|
    decreases |ts|, 8
  {
    if AtStar(ts) then Got(Array([], Bracket), ts[2..])
    else ParseQualifiedArray(ts)
  }

  /** A later array suffix of an abstract declarator takes no qualifiers. */
  function ParseLaterArray(ts: seq<Token>): (r: Parsed<Modifier>)
    ensures r.Got? ==> |r.rest| < |ts|
    decreases |ts|, 8
  {
    if AtStar(ts) then Got(Array([], Star), ts[2..])
    else if At(ts, TRBracket) then Got(Array([], NoDim), ts[1..])
    else CloseSized([], ts)
  }

  // ----- parameters -----

  /** What follows the `(` of a function suffix, up to and including its `)`. */
  function ParseArgs(ts: seq<Token>, named: bool): (r: Parsed<Modifier>)
    ensures r.Got? ==> |r.rest| < |ts|
    decreases |ts|, 3
  {
    if At(ts, TRParen) then Got(Func(NoArgs), ts[1..])
    else if ts != [] && ts[0].TId? then
      if !named then Fail
      else
        match ParseIdents(ts)
        case Fail => Fail
        case Got(ids, rest) => if At(rest, TRParen) then Got(Func(Names(ids)), rest[1..]) else Fail
    else
      match ParseParams(ts)
      case Fail => Fail
      case Got(p, rest) => if At(rest, TRParen) then Got(Func(p), rest[1..]) else Fail
  }

  function ParseIdents(ts: seq<Token>): (r: Parsed<seq<string>>)
    ensures r.Got? ==> |r.rest| < |ts|
  {
    if ts == [] || !ts[0].TId? then Fail
    else if !At(ts[1..], TComma) then Got([ts[0].name], ts[1..])
    else
      match ParseIdents(ts[2..])
      case Fail => Fail
      case Got(ids, rest) => Got([ts[0].name] + ids, rest)
  }

  function ParseParams(ts: seq<Token>): (r: Parsed<Args>)
    ensures r.Got? ==> |r.rest| < |ts| && r.value.Params?
    decreases |ts|, 2
  {
    match ParseParam(ts)
    case Fail => Fail
    case Got(p, rest) =>
      if !At(rest, TComma) then Got(Params([p], false), rest)
      else if At(rest[1..], TEllipsis) then Got(Params([p], true), rest[2..])
      else
        match ParseParams(rest[1..])
        case Fail => Fail
        case Got(ps, rest') => Got(Params([p] + ps.params, ps.ellipsis), rest')
  }

  function ParseParam(ts: seq<Token>): (r: Parsed<Param>)
    ensures r.Got? ==> |r.rest| < |ts|
    decreases |ts|, 1
  {
    var (specs, afterSpecs) := ParseSpecs(Specs([], [], []), ts);
    if specs.names == [] || |afterSpecs| >= |ts| then Fail
    else
      match ParseChain(afterSpecs)
      case Fail => Fail
      case Got(c, rest) => Got(Param(specs.storage, specs.quals, specs.names, c.name, c.mods), rest)
  }

  /** A complete expression. */
  function Parse(ts: seq<Token>): (r: Parsed<Expr>)
  {
    match ParseExpression(ts)
    case Fail => Fail
    case Got(e, rest) => if rest == [] then Got(e, []) else Fail
  }
}
