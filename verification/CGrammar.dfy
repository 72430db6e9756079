/** The expression grammar of section 6.5 of ISO/IEC 9899:1999 on its own, without a table
    of precedences: what the printer writes is a phrase of it, and the parser reads every
    phrase as its tree. */
module CGrammar {
  import opened CSyntax
  import opened CPrinter
  import opened CParser
  import opened CRoundTrip
  import opened CRoundTripExact

  // ----- phrases -----

  /** The binary operators of sections 6.5.5 to 6.5.14. */
  datatype Class =
    | Multiplicative | Additive | Shift | Relational | Equality
    | BitAnd | BitXor | BitOr | LogicalAnd | LogicalOr

  function Operators(c: Class): set<BinOp> {
    match c
    case Multiplicative => {Times, Div, Mod}
    case Additive => {Plus, Minus}
    case Shift => {Shl, Shr}
    case Relational => {Lt, Gt, Le, Ge}
    case Equality => {Eq, Ne}
    case BitAnd => {And}
    case BitXor => {Xor}
    case BitOr => {Or}
    case LogicalAnd => {LAnd}
    case LogicalOr => {LOr}
  }

  datatype Nonterminal =
    | PrimaryExpression | PostfixExpression | UnaryExpression | BinaryExpression(class_: Class)
    | ConditionalExpression | AssignmentExpression | AnyExpression

  /** What the operands of a class are, and what a phrase of it may be instead. */
  function Tighter(c: Class): Nonterminal {
    match c
    case Multiplicative => UnaryExpression
    case Additive => BinaryExpression(Multiplicative)
    case Shift => BinaryExpression(Additive)
    case Relational => BinaryExpression(Shift)
    case Equality => BinaryExpression(Relational)
    case BitAnd => BinaryExpression(Equality)
    case BitXor => BinaryExpression(BitAnd)
    case BitOr => BinaryExpression(BitXor)
    case LogicalAnd => BinaryExpression(BitOr)
    case LogicalOr => BinaryExpression(LogicalAnd)
  }

  /** A phrase with all its parentheses. Type names appear as they are printed. */
  datatype Phrase =
    | Name(name: string)
    | Literal(text: string)
    | Grouped(inner: Phrase)
    | Indexed(base: Phrase, subscript: Phrase)
    | Member(base: Phrase, arrow: bool, field: string)
    | Called(fn: Phrase, args: seq<Phrase>)
    | Stepped(base: Phrase, up: bool)
    | Prefixed(sign: UnOp, operand: Phrase)
    | OfType(sizeof_: bool, t: TypeName, reduce: bool)
    | Converted(t: TypeName, reduce: bool, operand: Phrase)
    | Infix(op: BinOp, left: Phrase, right: Phrase)
    | Chosen(cond: Phrase, yes: Phrase, no: Phrase)
    | Assigned(aop: AssignOp, target: Phrase, value: Phrase)
    | Listed(first: Phrase, last: Phrase)

  function SignToken(op: UnOp): Token {
    match op
    case AddrOf => TBin(And)
    case Deref => TBin(Times)
    case Pos => TBin(Plus)
    case Neg => TBin(Minus)
    case BitNot => TBitNot
    case LogNot => TLogNot
    case PreInc | PostInc => TInc
    case PreDec | PostDec => TDec
    case Sizeof => TSizeof
  }

  function Text(s: Phrase): seq<Token>
    decreases s, 0
  {
    match s
    case Name(name) => [TId(name)]
    case Literal(text) => [TConst(text)]
    case Grouped(inner) => [TLParen] + (Text(inner) + [TRParen])
    case Indexed(base, subscript) => Text(base) + ([TLBracket] + (Text(subscript) + [TRBracket]))
    case Member(base, arrow, field) => Text(base) + [if arrow then TArrow else TPeriod, TId(field)]
    case Called(fn, args) => Text(fn) + ([TLParen] + (ArgumentText(args) + [TRParen]))
    case Stepped(base, up) => Text(base) + [if up then TInc else TDec]
    case Prefixed(sign, operand) => [SignToken(sign)] + Text(operand)
    case OfType(sizeof_, t, reduce) =>
      [if sizeof_ then TSizeof else TAlignof] + ([TLParen] + (VisitTypeName(t, reduce) + [TRParen]))
    case Converted(t, reduce, operand) => [TLParen] + (VisitTypeName(t, reduce) + [TRParen]) + Text(operand)
    case Infix(op, left, right) => Text(left) + ([TBin(op)] + Text(right))
    case Chosen(cond, yes, no) => Text(cond) + ([TCondOp] + (Text(yes) + ([TColon] + Text(no))))
    case Assigned(aop, target, value) => Text(target) + ([TAssign(aop)] + Text(value))
    case Listed(first, last) => Text(first) + ([TComma] + Text(last))
  }

  function ArgumentText(args: seq<Phrase>): seq<Token>
    decreases args, 0
  {
    if args == [] then []
    else if |args| == 1 then Text(args[0])
    else Text(args[0]) + ([TComma] + ArgumentText(args[1..]))
  }

  /** What a phrase means; a list whose first part is a list is one longer list. */
  function Tree(s: Phrase): Expr
    decreases s, 0
  {
    match s
    case Name(name) => Id(name)
    case Literal(text) => Constant(text)
    case Grouped(inner) => Tree(inner)
    case Indexed(base, subscript) => ArrayRef(Tree(base), Tree(subscript))
    case Member(base, arrow, field) => StructRef(Tree(base), arrow, field)
    case Called(fn, args) => FuncCall(Tree(fn), Trees(args))
    case Stepped(base, up) => UnaryOp(if up then PostInc else PostDec, Tree(base))
    case Prefixed(sign, operand) => UnaryOp(sign, Tree(operand))
    case OfType(sizeof_, t, _) => TypeUnary(if sizeof_ then SizeofType else AlignofType, t)
    case Converted(t, _, operand) => Cast(t, Tree(operand))
    case Infix(op, left, right) => BinaryOp(op, Tree(left), Tree(right))
    case Chosen(cond, yes, no) => TernaryOp(Tree(cond), Tree(yes), Tree(no))
    case Assigned(aop, target, value) => Assignment(aop, Tree(target), Tree(value))
    case Listed(first, last) =>
      var l := Tree(first);
      ExprList((if l.ExprList? then l.exprs else [l]) + [Tree(last)])
  }

  function Trees(args: seq<Phrase>): (es: seq<Expr>)
    ensures |es| == |args|
    decreases args, 0
  {
    if args == [] then [] else [Tree(args[0])] + Trees(args[1..])
  }

  function Rank(nt: Nonterminal): nat {
    match nt
    case PrimaryExpression => 0
    case PostfixExpression => 1
    case UnaryExpression => 2
    case BinaryExpression(c) => 3 + Height(c)
    case ConditionalExpression => 13
    case AssignmentExpression => 14
    case AnyExpression => 15
  }

  function Height(c: Class): (h: nat)
    ensures h < 10
  {
    match c
    case Multiplicative => 0
    case Additive => 1
    case Shift => 2
    case Relational => 3
    case Equality => 4
    case BitAnd => 5
    case BitXor => 6
    case BitOr => 7
    case LogicalAnd => 8
    case LogicalOr => 9
  }

  /** The productions. */
  ghost predicate Fits(nt: Nonterminal, s: Phrase)
    decreases s, Rank(nt)
  {
    match nt
    case PrimaryExpression => s.Name? || s.Literal? || (s.Grouped? && Fits(AnyExpression, s.inner))
    case PostfixExpression =>
      if s.Indexed? then Fits(PostfixExpression, s.base) && Fits(AnyExpression, s.subscript)
      else if s.Member? || s.Stepped? then Fits(PostfixExpression, s.base)
      else if s.Called? then
        Fits(PostfixExpression, s.fn) && forall i | 0 <= i < |s.args| :: Fits(AssignmentExpression, s.args[i])
      else Fits(PrimaryExpression, s)
    case UnaryExpression =>
      if s.Prefixed? then s.sign != PostInc && s.sign != PostDec && Fits(UnaryExpression, s.operand)
      else if s.Converted? then ShapeOfType(s.t) == Printable && Fits(UnaryExpression, s.operand)
      else if s.OfType? then ShapeOfType(s.t) == Printable
      else Fits(PostfixExpression, s)
    case BinaryExpression(c) =>
      if s.Infix? && s.op in Operators(c) then Fits(BinaryExpression(c), s.left) && Fits(Tighter(c), s.right)
      else Fits(Tighter(c), s)
    case ConditionalExpression =>
      if s.Chosen? then
        && Fits(BinaryExpression(LogicalOr), s.cond) && Fits(AnyExpression, s.yes)
        && Fits(ConditionalExpression, s.no)
      else Fits(BinaryExpression(LogicalOr), s)
    case AssignmentExpression =>
      if s.Assigned? then Fits(UnaryExpression, s.target) && Fits(AssignmentExpression, s.value)
      else Fits(ConditionalExpression, s)
    case AnyExpression =>
      if s.Listed? then Fits(AnyExpression, s.first) && Fits(AssignmentExpression, s.last)
      else Fits(AssignmentExpression, s)
  }

  /** The phrase ends in a bare `sizeof (type)`, which would take a following sign for the
      start of a cast's operand. */
  predicate EndsInSizeof(s: Phrase) {
    match s
    case OfType(sizeof_, _, _) => sizeof_
    case Prefixed(_, operand) => EndsInSizeof(operand)
    case Converted(_, _, operand) => EndsInSizeof(operand)
    case Infix(_, _, right) => EndsInSizeof(right)
    case Chosen(_, _, no) => EndsInSizeof(no)
    case Assigned(_, _, value) => EndsInSizeof(value)
    case Listed(_, last) => EndsInSizeof(last)
    case _ => false
  }

  /** Nowhere in the phrase does a bare `sizeof (type)` stand left of an operator that could
      also be a sign. There the grammar is ambiguous and the table takes the sign. */
  predicate SizeofApart(s: Phrase) {
    match s
    case Name(_) => true
    case Literal(_) => true
    case Grouped(inner) => SizeofApart(inner)
    case Indexed(base, subscript) => SizeofApart(base) && SizeofApart(subscript)
    case Member(base, _, _) => SizeofApart(base)
    case Called(fn, args) => SizeofApart(fn) && forall i | 0 <= i < |args| :: SizeofApart(args[i])
    case Stepped(base, _) => SizeofApart(base)
    case Prefixed(_, operand) => SizeofApart(operand)
    case OfType(_, _, _) => true
    case Converted(_, _, operand) => SizeofApart(operand)
    case Infix(op, left, right) =>
      SizeofApart(left) && SizeofApart(right) && (op in {And, Times, Plus, Minus} ==> !EndsInSizeof(left))
    case Chosen(cond, yes, no) => SizeofApart(cond) && SizeofApart(yes) && SizeofApart(no)
    case Assigned(_, target, value) => SizeofApart(target) && SizeofApart(value)
    case Listed(first, last) => SizeofApart(first) && SizeofApart(last)
  }

  // ----- the table follows the classes -----

  /** The class of an operator. */
  function ClassOf(op: BinOp): (c: Class)
    ensures forall d: Class :: op in Operators(d) <==> d == c
  {
    match op
    case Times | Div | Mod => Multiplicative
    case Plus | Minus => Additive
    case Shl | Shr => Shift
    case Lt | Gt | Le | Ge => Relational
    case Eq | Ne => Equality
    case And => BitAnd
    case Xor => BitXor
    case Or => BitOr
    case LAnd => LogicalAnd
    case LOr => LogicalOr
  }

  /** The precedences agree with the order of the classes. */
  lemma LevelsFollowClasses(op: BinOp)
    ensures Prec(op) == 9 - Height(ClassOf(op))
  {
  }

  // ----- the parser reads every phrase -----

  lemma {:induction false} TextStarts(s: Phrase)
    ensures StartsUnary(Text(s))
    decreases s
  {
    match s
    case Indexed(base, _) => TextStarts(base);
    case Member(base, _, _) => TextStarts(base);
    case Called(fn, _) => TextStarts(fn);
    case Stepped(base, _) => TextStarts(base);
    case Infix(_, left, _) => TextStarts(left);
    case Chosen(cond, _, _) => TextStarts(cond);
    case Assigned(_, target, _) => TextStarts(target);
    case Listed(first, _) => TextStarts(first);
    case _ =>
  }

  /** A phrase before other tokens begins neither with a type nor with a closing parenthesis. */
  lemma TextStartsIn(s: Phrase, rest: seq<Token>)
    ensures StartsUnary(Text(s) + rest) && !StartsType(Text(s) + rest) && !At(Text(s) + rest, TRParen)
  {
    TextStarts(s);
  }

  lemma {:induction false} PostfixReads(s: Phrase, rest: seq<Token>)
    requires Fits(PostfixExpression, s) && SizeofApart(s)
    ensures ParseUnary(Text(s) + rest) == PostfixTail(Tree(s), rest)
    decreases s, 1
  {
    match s
    case Name(name) => StepLeaf(TId(name), rest);
    case Literal(text) => StepLeaf(TConst(text), rest);
    case Grouped(inner) => GroupedReads(inner, rest);
    case Indexed(base, subscript) =>
      var inside := Text(subscript) + ([TRBracket] + rest);
      Regroup4(Text(base), [TLBracket], Text(subscript), [TRBracket], rest);
      PostfixReads(base, [TLBracket] + inside);
      ExpressionReads(subscript, [TRBracket] + rest);
      StepIndex(Tree(base), Tree(subscript), inside, rest);
    case Member(base, arrow, field) =>
      var tail := [if arrow then TArrow else TPeriod, TId(field)];
      Associate(Text(base), tail, rest);
      PostfixReads(base, tail + rest);
      StepField(Tree(base), arrow, field, rest);
    case Called(fn, args) =>
      CalledReads(fn, args, rest);
    case Stepped(base, up) =>
      var t := [if up then TInc else TDec];
      Associate(Text(base), t, rest);
      PostfixReads(base, t + rest);
      StepPostfix(Tree(base), if up then PostInc else PostDec, rest);
  }

  lemma {:induction false} GroupedReads(inner: Phrase, rest: seq<Token>)
    requires Fits(AnyExpression, inner) && SizeofApart(inner)
    ensures ParseUnary(Text(Grouped(inner)) + rest) == PostfixTail(Tree(inner), rest)
    decreases inner, 40
  {
    var inside := Text(inner) + ([TRParen] + rest);
    ParensSplit(Text(inner), rest);
    TextStartsIn(inner, [TRParen] + rest);
    ExpressionReads(inner, [TRParen] + rest);
    StepParens(Tree(inner), inside, rest);
  }

  lemma {:induction false} CalledReads(fn: Phrase, args: seq<Phrase>, rest: seq<Token>)
    requires Fits(PostfixExpression, fn) && SizeofApart(fn)
    requires forall i | 0 <= i < |args| :: Fits(AssignmentExpression, args[i]) && SizeofApart(args[i])
    ensures ParseUnary(Text(fn) + ([TLParen] + (ArgumentText(args) + [TRParen])) + rest)
         == PostfixTail(FuncCall(Tree(fn), Trees(args)), rest)
    decreases Called(fn, args), 0
  {
    var inside := ArgumentText(args) + ([TRParen] + rest);
    PostfixReads(fn, [TLParen] + inside);
    InsideReads(args, inside, rest);
    CallReads(Text(fn), Tree(fn), ArgumentText(args), Trees(args), inside, rest);
  }

  lemma CallReads(fn: seq<Token>, f: Expr, args: seq<Token>, es: seq<Expr>, inside: seq<Token>, rest: seq<Token>)
    requires inside == args + ([TRParen] + rest)
    requires ParseUnary(fn + ([TLParen] + inside)) == PostfixTail(f, [TLParen] + inside)
    requires if es == [] then inside == [TRParen] + rest
             else !At(inside, TRParen) && ParseArguments(inside) == Got(es, [TRParen] + rest)
    ensures ParseUnary(fn + ([TLParen] + (args + [TRParen])) + rest) == PostfixTail(FuncCall(f, es), rest)
  {
    Regroup4(fn, [TLParen], args, [TRParen], rest);
    StepCall(f, es, inside, rest);
  }

  /** What stands between the parentheses of a call. */
  lemma {:induction false} InsideReads(args: seq<Phrase>, inside: seq<Token>, rest: seq<Token>)
    requires forall i | 0 <= i < |args| :: Fits(AssignmentExpression, args[i]) && SizeofApart(args[i])
    requires inside == ArgumentText(args) + ([TRParen] + rest)
    ensures if Trees(args) == [] then inside == [TRParen] + rest
            else !At(inside, TRParen) && ParseArguments(inside) == Got(Trees(args), [TRParen] + rest)
    decreases args, 1
  {
    if |args| == 0 {
      NoArguments(args, rest);
    } else {
      ArgumentsRead(args, [TRParen] + rest);
    }
  }

  lemma NoArguments(args: seq<Phrase>, rest: seq<Token>)
    requires |args| == 0
    ensures ArgumentText(args) + ([TRParen] + rest) == [TRParen] + rest && Trees(args) == []
  {
  }

  lemma {:induction false} ArgumentsRead(args: seq<Phrase>, rest: seq<Token>)
    requires args != [] && At(rest, TRParen)
    requires forall i | 0 <= i < |args| :: Fits(AssignmentExpression, args[i]) && SizeofApart(args[i])
    ensures ParseArguments(ArgumentText(args) + rest) == Got(Trees(args), rest)
    ensures !At(ArgumentText(args) + rest, TRParen)
    decreases args, 0
  {
    if |args| == 1 {
      AssignmentReads(args[0], rest);
      TextStartsIn(args[0], rest);
      assert Trees(args) == [Tree(args[0])];
    } else {
      var more := ArgumentText(args[1..]) + rest;
      Regroup(Text(args[0]), [TComma], ArgumentText(args[1..]), rest);
      TextStartsIn(args[0], [TComma] + more);
      AssignmentReads(args[0], [TComma] + more);
      ArgumentsRead(args[1..], rest);
      ArgumentsJoin(args, Text(args[0]) + ([TComma] + more), more, rest);
    }
  }

  lemma ArgumentsJoin(args: seq<Phrase>, ts: seq<Token>, more: seq<Token>, rest: seq<Token>)
    requires args != [] && ParseAssignment(ts) == Got(Tree(args[0]), [TComma] + more)
    requires ParseArguments(more) == Got(Trees(args[1..]), rest)
    ensures ParseArguments(ts) == Got(Trees(args), rest)
  {
    var es := Trees(args);
    assert es == [Tree(args[0])] + Trees(args[1..]) && es[1..] == Trees(args[1..]);
    StepArgument(es, ts, more, rest);
  }

  lemma StepAlignof(t: TypeName, ts: seq<Token>, rest: seq<Token>)
    requires StartsType(ts) && ParseParenType([TLParen] + ts) == Got(t, rest)
    ensures ParseUnary([TAlignof] + ([TLParen] + ts)) == Got(TypeUnary(AlignofType, t), rest)
  {
    var all := [TAlignof] + ([TLParen] + ts);
    assert all[1..] == [TLParen] + ts && all[2..] == ts;
  }

  /** `sizeof` of a cast takes the other way through the rule. */
  lemma StepSizeofCast(t: TypeName, x: Expr, ts: seq<Token>, operand: seq<Token>, rest: seq<Token>)
    requires StartsType(ts) && ParseParenType([TLParen] + ts) == Got(t, operand)
    requires StartsUnary(operand) && ParseUnary(operand) == Got(x, rest)
    ensures ParseUnary([TSizeof] + ([TLParen] + ts)) == Got(UnaryOp(Sizeof, Cast(t, x)), rest)
  {
    var inner := [TLParen] + ts;
    var all := [TSizeof] + inner;
    assert all[1..] == inner && inner[1..] == ts;
    assert ParseSizeof(inner) == Got(UnaryOp(Sizeof, Cast(t, x)), rest);
  }

  /** What may follow a unary expression. */
  predicate UnaryEnds(s: Phrase, rest: seq<Token>) {
    EndsOperand(rest) && (EndsInSizeof(s) ==> !StartsUnary(rest))
  }

  lemma {:induction false} UnaryReads(s: Phrase, rest: seq<Token>)
    requires Fits(UnaryExpression, s) && SizeofApart(s) && UnaryEnds(s, rest)
    ensures ParseUnary(Text(s) + rest) == Got(Tree(s), rest)
    decreases s, 2
  {
    match s
    case Prefixed(sign, operand) =>
      PrefixedReads(sign, operand, rest);
    case OfType(sizeof_, t, reduce) =>
      OfTypeReads(sizeof_, t, reduce, rest);
    case Converted(t, reduce, operand) =>
      ConvertedReads(t, reduce, operand, rest);
    case _ =>
      PostfixReads(s, rest);
      OperandEnds(Tree(s), rest);
  }

  lemma {:induction false} PrefixedReads(sign: UnOp, operand: Phrase, rest: seq<Token>)
    requires sign != PostInc && sign != PostDec
    requires Fits(UnaryExpression, operand) && SizeofApart(operand) && UnaryEnds(operand, rest)
    ensures ParseUnary([SignToken(sign)] + Text(operand) + rest) == Got(UnaryOp(sign, Tree(operand)), rest)
    decreases operand, 9
  {
    var ts := Text(operand) + rest;
    Associate([SignToken(sign)], Text(operand), rest);
    if sign != Sizeof {
      UnaryReads(operand, rest);
      assert Prefix(sign) == [SignToken(sign)];
      StepPrefix(sign, Tree(operand), ts, rest);
    } else if operand.Converted? {
      SizeofConvertedReads(operand.t, operand.reduce, operand.operand, rest);
    } else {
      UnaryReads(operand, rest);
      NoTypeInside(operand, rest);
      StepSizeof(Tree(operand), ts, rest);
    }
  }

  predicate NoTypeFirst(ts: seq<Token>) {
    |ts| > 0 && !(ts[0] == TLParen && StartsType(ts[1..]))
  }

  /** Only a cast begins with a parenthesised type. */
  lemma NoTypeInside(s: Phrase, rest: seq<Token>)
    requires Fits(UnaryExpression, s) && !s.Converted?
    ensures NoTypeFirst(Text(s) + rest)
  {
    if !s.Prefixed? && !s.OfType? {
      NoTypeInPostfix(s, rest);
    }
  }

  lemma {:induction false} NoTypeInPostfix(s: Phrase, rest: seq<Token>)
    requires Fits(PostfixExpression, s)
    ensures NoTypeFirst(Text(s) + rest)
    decreases s, 0
  {
    match s
    case Grouped(inner) =>
      ParensSplit(Text(inner), rest);
      TextStartsIn(inner, [TRParen] + rest);
      assert (Text(s) + rest)[1..] == Text(inner) + ([TRParen] + rest);
    case Indexed(base, subscript) =>
      NoTypeBefore(base, [TLBracket] + (Text(subscript) + [TRBracket]), rest);
    case Member(base, arrow, field) =>
      NoTypeBefore(base, [if arrow then TArrow else TPeriod, TId(field)], rest);
    case Called(fn, args) =>
      NoTypeBefore(fn, [TLParen] + (ArgumentText(args) + [TRParen]), rest);
    case Stepped(base, up) =>
      NoTypeBefore(base, [if up then TInc else TDec], rest);
    case _ =>
  }

  lemma {:induction false} NoTypeBefore(base: Phrase, tail: seq<Token>, rest: seq<Token>)
    requires Fits(PostfixExpression, base)
    ensures NoTypeFirst(Text(base) + tail + rest)
    decreases base, 1
  {
    Associate(Text(base), tail, rest);
    NoTypeInPostfix(base, tail + rest);
  }

  lemma OfTypeReads(sizeof_: bool, t: TypeName, reduce: bool, rest: seq<Token>)
    requires ShapeOfType(t) == Printable && (sizeof_ ==> !StartsUnary(rest))
    ensures ParseUnary(Text(OfType(sizeof_, t, reduce)) + rest)
         == Got(TypeUnary(if sizeof_ then SizeofType else AlignofType, t), rest)
  {
    var ts := VisitTypeName(t, reduce) + ([TRParen] + rest);
    Regroup4([if sizeof_ then TSizeof else TAlignof], [TLParen], VisitTypeName(t, reduce), [TRParen], rest);
    ParenTypeBack(t, reduce, rest);
    if sizeof_ {
      StepTypeUnary(SizeofType, t, ts, rest);
    } else {
      StepAlignof(t, ts, rest);
    }
  }

  /** The text of a cast, from the parenthesis on. */
  lemma ConvertedText(t: TypeName, reduce: bool, operand: Phrase, rest: seq<Token>)
    ensures Text(Converted(t, reduce, operand)) + rest
         == [TLParen] + (VisitTypeName(t, reduce) + ([TRParen] + (Text(operand) + rest)))
  {
    Associate(Parens(VisitTypeName(t, reduce)), Text(operand), rest);
    ParensSplit(VisitTypeName(t, reduce), Text(operand) + rest);
  }

  lemma {:induction false} ConvertedReads(t: TypeName, reduce: bool, operand: Phrase, rest: seq<Token>)
    requires ShapeOfType(t) == Printable
    requires Fits(UnaryExpression, operand) && SizeofApart(operand) && UnaryEnds(operand, rest)
    ensures ParseUnary(Text(Converted(t, reduce, operand)) + rest) == Got(Cast(t, Tree(operand)), rest)
    decreases operand, 9
  {
    var after := Text(operand) + rest;
    ConvertedText(t, reduce, operand, rest);
    ParenTypeBack(t, reduce, after);
    UnaryReads(operand, rest);
    StepCast(t, Tree(operand), VisitTypeName(t, reduce) + ([TRParen] + after), after, rest);
  }

  lemma {:induction false} SizeofConvertedReads(t: TypeName, reduce: bool, operand: Phrase, rest: seq<Token>)
    requires ShapeOfType(t) == Printable
    requires Fits(UnaryExpression, operand) && SizeofApart(operand) && UnaryEnds(operand, rest)
    ensures ParseUnary([TSizeof] + (Text(Converted(t, reduce, operand)) + rest))
         == Got(UnaryOp(Sizeof, Cast(t, Tree(operand))), rest)
    decreases operand, 9
  {
    var after := Text(operand) + rest;
    ConvertedText(t, reduce, operand, rest);
    ParenTypeBack(t, reduce, after);
    TextStartsIn(operand, rest);
    UnaryReads(operand, rest);
    StepSizeofCast(t, Tree(operand), VisitTypeName(t, reduce) + ([TRParen] + after), after, rest);
  }

  /** The level in the table of an operator of a class. */
  function Level(c: Class): int {
    9 - Height(c)
  }

  /** What may follow an operand of a class: nothing that binds tighter than it does. */
  predicate BinaryEnds(c: Class, s: Phrase, rest: seq<Token>) {
    && EndsOperand(rest) && NotTighter(rest, Level(c))
    && (EndsInSizeof(s) ==> !StartsUnary(rest))
  }

  /** On any stack of looser operators a phrase of a class is read as its tree. */
  lemma {:induction false} BinaryReads(c: Class, stack: Stack, s: Phrase, rest: seq<Token>)
    requires Fits(BinaryExpression(c), s) && SizeofApart(s)
    requires BelowTop(stack, Level(c)) && BinaryEnds(c, s, rest)
    ensures ReadsAs(stack, Text(s) + rest, Tree(s), rest)
    decreases s, 11 + 2 * Height(c)
  {
    if s.Infix? && s.op in Operators(c) {
      InfixReads(c, stack, s.op, s.left, s.right, rest);
    } else {
      OperandReads(c, stack, s, rest);
    }
  }

  lemma {:induction false} OperandReads(c: Class, stack: Stack, s: Phrase, rest: seq<Token>)
    requires Fits(Tighter(c), s) && SizeofApart(s)
    requires BelowTop(stack, Level(c) + 1) && BinaryEnds(c, s, rest)
    ensures ReadsAs(stack, Text(s) + rest, Tree(s), rest)
    decreases s, 10 + 2 * Height(c)
  {
    if c == Multiplicative {
      UnaryReads(s, rest);
    } else {
      var d := Tighter(c).class_;
      assert Height(d) == Height(c) - 1;
      BinaryReads(d, stack, s, rest);
    }
  }

  lemma {:induction false} InfixReads(c: Class, stack: Stack, op: BinOp, l: Phrase, r: Phrase, rest: seq<Token>)
    requires op in Operators(c) && Fits(BinaryExpression(c), l) && Fits(Tighter(c), r)
    requires SizeofApart(Infix(op, l, r)) && BelowTop(stack, Level(c)) && BinaryEnds(c, r, rest)
    ensures ReadsAs(stack, Text(Infix(op, l, r)) + rest, BinaryOp(op, Tree(l), Tree(r)), rest)
    decreases Infix(op, l, r), 0
  {
    var afterOp := Text(r) + rest;
    var pushed := stack + [(Tree(l), op)];
    LevelsFollowClasses(op);
    assert ClassOf(op) == c;
    Regroup(Text(l), [TBin(op)], Text(r), rest);
    BinaryReads(c, stack, l, [TBin(op)] + afterOp);
    OperandReads(c, pushed, r, rest);
    ShiftsOver(stack, Tree(l), op, afterOp, Tree(r), rest);
    ReducesTop(stack, Tree(l), op, Tree(r), rest);
  }

  /** A conditional before a token that ends it. */
  lemma {:induction false} ConditionalReads(s: Phrase, rest: seq<Token>)
    requires Fits(ConditionalExpression, s) && SizeofApart(s) && Stop(rest)
    ensures ParseAssignment(Text(s) + rest) == Got(Tree(s), rest)
    ensures ParseConditional(Text(s) + rest) == Got(Tree(s), rest)
    decreases s, 30
  {
    if s.Chosen? {
      ChosenReads(s.cond, s.yes, s.no, rest);
    } else {
      BinaryReads(LogicalOr, [], s, rest);
      StepCondition(Tree(s), Text(s) + rest, rest);
    }
  }

  lemma StepCondition(e: Expr, ts: seq<Token>, rest: seq<Token>)
    requires ReadsAs([], ts, e, rest) && Stop(rest)
    ensures ParseAssignment(ts) == Got(e, rest) && ParseConditional(ts) == Got(e, rest)
  {
    StepBinary(e, ts, rest);
    var p := ParseUnary(ts);
    assert BinaryTail([], e, rest) == Got(e, rest);
    assert ParseConditional(ts) == ConditionalTail(BinaryTail([], p.value, p.rest));
  }

  lemma {:induction false} ChosenReads(c: Phrase, a: Phrase, b: Phrase, rest: seq<Token>)
    requires Fits(BinaryExpression(LogicalOr), c) && Fits(AnyExpression, a) && Fits(ConditionalExpression, b)
    requires SizeofApart(c) && SizeofApart(a) && SizeofApart(b) && Stop(rest)
    ensures var ts := Text(Chosen(c, a, b)) + rest;
            && ParseAssignment(ts) == Got(TernaryOp(Tree(c), Tree(a), Tree(b)), rest)
            && ParseConditional(ts) == Got(TernaryOp(Tree(c), Tree(a), Tree(b)), rest)
    decreases Chosen(c, a, b), 0
  {
    var elseTs := Text(b) + rest;
    var thenTs := Text(a) + ([TColon] + elseTs);
    ChosenText(c, a, b, rest);
    BinaryReads(LogicalOr, [], c, [TCondOp] + thenTs);
    ExpressionReads(a, [TColon] + elseTs);
    ConditionalReads(b, rest);
    StepChoice(Tree(c), Tree(a), Tree(b), Text(c) + ([TCondOp] + thenTs), thenTs, elseTs, rest);
  }

  lemma ChosenText(c: Phrase, a: Phrase, b: Phrase, rest: seq<Token>)
    ensures Text(Chosen(c, a, b)) + rest
         == Text(c) + ([TCondOp] + (Text(a) + ([TColon] + (Text(b) + rest))))
  {
    Regroup(Text(a), [TColon], Text(b), rest);
    Regroup(Text(c), [TCondOp], Text(a) + ([TColon] + Text(b)), rest);
  }

  lemma StepChoice(c: Expr, a: Expr, b: Expr, ts: seq<Token>, thenTs: seq<Token>, elseTs: seq<Token>,
                   rest: seq<Token>)
    requires ReadsAs([], ts, c, [TCondOp] + thenTs)
    requires ParseExpression(thenTs) == Got(a, [TColon] + elseTs) && ParseConditional(elseTs) == Got(b, rest)
    ensures ParseAssignment(ts) == Got(TernaryOp(c, a, b), rest)
    ensures ParseConditional(ts) == Got(TernaryOp(c, a, b), rest)
  {
    var after := [TCondOp] + thenTs;
    assert after[1..] == thenTs && ([TColon] + elseTs)[1..] == elseTs;
    var p := ParseUnary(ts);
    assert BinaryTail([], c, after) == Got(c, after);
    assert ConditionalTail(Got(c, after)) == Got(TernaryOp(c, a, b), rest);
    assert ParseConditional(ts) == ConditionalTail(BinaryTail([], p.value, p.rest));
    assert AssignmentTail(p.value, p.rest) == ConditionalTail(BinaryTail([], p.value, p.rest));
  }

  lemma {:induction false} AssignmentReads(s: Phrase, rest: seq<Token>)
    requires Fits(AssignmentExpression, s) && SizeofApart(s) && Stop(rest)
    ensures ParseAssignment(Text(s) + rest) == Got(Tree(s), rest)
    decreases s, 31
  {
    if s.Assigned? {
      var value := Text(s.value) + rest;
      Regroup(Text(s.target), [TAssign(s.aop)], Text(s.value), rest);
      UnaryReads(s.target, [TAssign(s.aop)] + value);
      AssignmentReads(s.value, rest);
      StepAssign(s.aop, Tree(s.target), Tree(s.value), Text(s) + rest, value, rest);
    } else {
      ConditionalReads(s, rest);
    }
  }

  lemma {:induction false} ExpressionReads(s: Phrase, rest: seq<Token>)
    requires Fits(AnyExpression, s) && SizeofApart(s) && Stop(rest)
    ensures ParseExpression(Text(s) + rest) == ExpressionTail(Tree(s), rest)
    ensures !At(rest, TComma) ==> ParseExpression(Text(s) + rest) == Got(Tree(s), rest)
    decreases s, 32
  {
    if s.Listed? {
      var items := Text(s.last) + rest;
      Regroup(Text(s.first), [TComma], Text(s.last), rest);
      ExpressionReads(s.first, [TComma] + items);
      AssignmentReads(s.last, rest);
      StepComma(Tree(s.first), Tree(s.last), items, rest);
      assert Extend(Tree(s.first), Tree(s.last)) == Tree(s);
    } else {
      AssignmentReads(s, rest);
    }
  }

  /** The parser reads every phrase of the grammar as its tree. */
  lemma ParserFollowsGrammar(s: Phrase)
    requires Fits(AnyExpression, s) && SizeofApart(s)
    ensures Parse(Text(s)) == Got(Tree(s), [])
  {
    ExpressionReads(s, []);
    assert Text(s) + [] == Text(s);
  }

  // ----- the printer writes phrases -----

  /** The phrase that the printer writes for an expression. */
  function Printed(e: Expr, reduce: bool): Phrase
    decreases e, 0
  {
    match e
    case Constant(v) => Literal(v)
    case Id(n) => Name(n)
    case ArrayRef(b, s) => Indexed(PrintedOperand(b, reduce), Printed(s, reduce))
    case StructRef(b, arrow, f) => Member(PrintedOperand(b, reduce), arrow, f)
    case FuncCall(f, args) => Called(PrintedOperand(f, reduce), PrintedArguments(args, reduce))
    case UnaryOp(op, x) =>
      if op == Sizeof then Prefixed(Sizeof, Grouped(Printed(x, reduce)))
      else if op == PostInc || op == PostDec then Stepped(PrintedOperand(x, reduce), op == PostInc)
      else Prefixed(op, PrintedOperand(x, reduce))
    case TypeUnary(op, t) => OfType(op == SizeofType, t, reduce)
    case Cast(t, x) => Converted(t, reduce, PrintedOperand(x, reduce))
    case BinaryOp(op, l, r) => Infix(op, PrintedSide(l, op, true, reduce), PrintedSide(r, op, false, reduce))
    case TernaryOp(c, a, b) =>
      Chosen(Grouped(PrintedExpr(c, reduce)), Grouped(PrintedExpr(a, reduce)), Grouped(PrintedExpr(b, reduce)))
    case Assignment(op, l, r) => Assigned(op, Printed(l, reduce), PrintedValue(r, reduce))
    case ExprList(es) => if es == [] then Name("") else PrintedList(es, |es|, reduce)
  }

  function PrintedExpr(e: Expr, reduce: bool): Phrase
    decreases e, 1
  {
    if e.ExprList? then Grouped(Printed(e, reduce)) else Printed(e, reduce)
  }

  function PrintedOperand(e: Expr, reduce: bool): Phrase
    decreases e, 2
  {
    if IsSimple(e) then PrintedExpr(e, reduce) else Grouped(PrintedExpr(e, reduce))
  }

  function PrintedSide(e: Expr, op: BinOp, isLeft: bool, reduce: bool): Phrase
    decreases e, 2
  {
    if Bare(e, op, isLeft, reduce) then PrintedExpr(e, reduce) else Grouped(PrintedExpr(e, reduce))
  }

  function PrintedValue(e: Expr, reduce: bool): Phrase
    decreases e, 2
  {
    if e.Assignment? then Grouped(PrintedExpr(e, reduce)) else PrintedExpr(e, reduce)
  }

  function PrintedArguments(args: seq<Expr>, reduce: bool): (ps: seq<Phrase>)
    ensures |ps| == |args|
    decreases args, 0
  {
    if args == [] then [] else [PrintedExpr(args[0], reduce)] + PrintedArguments(args[1..], reduce)
  }

  /** The first `n` items of a list. */
  function PrintedList(es: seq<Expr>, n: nat, reduce: bool): Phrase
    requires 1 <= n <= |es|
    decreases es, n
  {
    if n == 1 then PrintedExpr(es[0], reduce)
    else Listed(PrintedList(es, n - 1, reduce), PrintedExpr(es[n - 1], reduce))
  }

  // what it writes

  lemma {:induction false} PrintedText(e: Expr, reduce: bool)
    requires ShapeOf(e) == Printable
    ensures Text(Printed(e, reduce)) == Visit(e, reduce)
    decreases e, 1
  {
    match e
    case Constant(_) =>
    case Id(_) =>
    case ArrayRef(b, s) =>
      PrintedOperandText(b, reduce);
      PrintedText(s, reduce);
    case StructRef(b, _, _) =>
      PrintedOperandText(b, reduce);
    case FuncCall(f, args) =>
      PrintedOperandText(f, reduce);
      PrintedArgumentsText(args, reduce);
    case UnaryOp(op, x) =>
      PrintedUnaryText(op, x, reduce);
    case TypeUnary(_, _) =>
    case Cast(t, x) =>
      PrintedOperandText(x, reduce);
    case ExprList(es) =>
      PrintedListText(es, |es|, reduce);
      assert es[|es|..] == [];
    case _ =>
      InfixText(e, reduce);
  }

  lemma {:induction false} InfixText(e: Expr, reduce: bool)
    requires ShapeOf(e) == Printable && (e.BinaryOp? || e.TernaryOp? || e.Assignment?)
    ensures Text(Printed(e, reduce)) == Visit(e, reduce)
    decreases e, 0
  {
    match e
    case BinaryOp(op, l, r) =>
      PrintedSideText(l, op, true, reduce);
      PrintedSideText(r, op, false, reduce);
    case TernaryOp(c, a, b) =>
      GroupedText(c, reduce);
      GroupedText(a, reduce);
      GroupedText(b, reduce);
      TernaryText(c, a, b, reduce);
    case Assignment(op, l, r) =>
      PrintedText(l, reduce);
      PrintedValueText(r, reduce);
  }

  lemma TernaryText(c: Expr, a: Expr, b: Expr, reduce: bool)
    requires Text(Grouped(PrintedExpr(c, reduce))) == Parens(VisitExpr(c, reduce))
    requires Text(Grouped(PrintedExpr(a, reduce))) == Parens(VisitExpr(a, reduce))
    requires Text(Grouped(PrintedExpr(b, reduce))) == Parens(VisitExpr(b, reduce))
    ensures Text(Printed(TernaryOp(c, a, b), reduce)) == Visit(TernaryOp(c, a, b), reduce)
  {
  }

  lemma {:induction false} PrintedUnaryText(op: UnOp, x: Expr, reduce: bool)
    requires ShapeOf(x) == Printable
    ensures Text(Printed(UnaryOp(op, x), reduce)) == Visit(UnaryOp(op, x), reduce)
    decreases x, 9
  {
    PrintedText(x, reduce);
    PrintedOperandText(x, reduce);
  }

  lemma {:induction false} PrintedExprText(e: Expr, reduce: bool)
    requires ShapeOf(e) == Printable
    ensures Text(PrintedExpr(e, reduce)) == VisitExpr(e, reduce)
    decreases e, 2
  {
    PrintedText(e, reduce);
  }

  lemma {:induction false} GroupedText(e: Expr, reduce: bool)
    requires ShapeOf(e) == Printable
    ensures Text(Grouped(PrintedExpr(e, reduce))) == Parens(VisitExpr(e, reduce))
    decreases e, 3
  {
    PrintedExprText(e, reduce);
  }

  lemma {:induction false} PrintedSideText(e: Expr, op: BinOp, isLeft: bool, reduce: bool)
    requires ShapeOf(e) == Printable
    ensures Text(PrintedSide(e, op, isLeft, reduce)) == Side(e, op, isLeft, reduce)
    decreases e, 4
  {
    PrintedExprText(e, reduce);
    GroupedText(e, reduce);
  }

  lemma {:induction false} PrintedValueText(e: Expr, reduce: bool)
    requires ShapeOf(e) == Printable
    ensures Text(PrintedValue(e, reduce)) == Rvalue(e, reduce)
    decreases e, 4
  {
    PrintedExprText(e, reduce);
    GroupedText(e, reduce);
  }

  lemma {:induction false} PrintedOperandText(e: Expr, reduce: bool)
    requires ShapeOf(e) == Printable
    ensures Text(PrintedOperand(e, reduce)) == UnlessSimple(e, reduce)
    decreases e, 4
  {
    PrintedExprText(e, reduce);
    GroupedText(e, reduce);
  }

  lemma {:induction false} PrintedArgumentsText(args: seq<Expr>, reduce: bool)
    requires forall i | 0 <= i < |args| :: ShapeOf(args[i]) == Printable
    ensures ArgumentText(PrintedArguments(args, reduce)) == VisitList(args, reduce)
    decreases args, 0
  {
    if args != [] {
      PrintedExprText(args[0], reduce);
      PrintedArgumentsText(args[1..], reduce);
      assert PrintedArguments(args, reduce)[1..] == PrintedArguments(args[1..], reduce);
    }
  }

  /** The items after the first `n`, each with its comma. */
  function Tail(es: seq<Expr>, reduce: bool): seq<Token> {
    if es == [] then [] else [TComma] + VisitList(es, reduce)
  }

  lemma {:induction false} PrintedListText(es: seq<Expr>, n: nat, reduce: bool)
    requires 1 <= n <= |es| && forall i | 0 <= i < |es| :: ShapeOf(es[i]) == Printable
    ensures Text(PrintedList(es, n, reduce)) + Tail(es[n..], reduce) == VisitList(es, reduce)
    decreases es, n
  {
    PrintedExprText(es[n - 1], reduce);
    if n > 1 {
      PrintedListText(es, n - 1, reduce);
      TailSplit(es, n - 1, reduce);
      ListedText(PrintedList(es, n - 1, reduce), PrintedExpr(es[n - 1], reduce), Tail(es[n..], reduce));
    }
  }

  lemma ListedText(first: Phrase, last: Phrase, tail: seq<Token>)
    ensures Text(Listed(first, last)) + tail == Text(first) + ([TComma] + Text(last) + tail)
  {
    Associate(Text(first), [TComma] + Text(last), tail);
  }

  lemma TailSplit(es: seq<Expr>, i: nat, reduce: bool)
    requires i < |es|
    ensures Tail(es[i..], reduce) == [TComma] + VisitExpr(es[i], reduce) + Tail(es[i + 1..], reduce)
  {
    assert es[i..][0] == es[i] && es[i..][1..] == es[i + 1..];
    if |es[i..]| > 1 {
      Associate([TComma], VisitExpr(es[i], reduce), [TComma] + VisitList(es[i + 1..], reduce));
    }
  }

  // its tree

  /** Parentheses do not change the tree. */
  lemma WrappedTree(e: Expr, reduce: bool)
    requires Tree(Printed(e, reduce)) == e
    ensures Tree(PrintedExpr(e, reduce)) == e && Tree(Grouped(PrintedExpr(e, reduce))) == e
    ensures Tree(PrintedOperand(e, reduce)) == e && Tree(PrintedValue(e, reduce)) == e
  {
    assert Tree(Grouped(Printed(e, reduce))) == e;
  }

  lemma {:induction false} PrintedTree(e: Expr, reduce: bool)
    requires ShapeOf(e) == Printable
    ensures Tree(Printed(e, reduce)) == e
    decreases e, 1
  {
    match e
    case Constant(_) =>
    case Id(_) =>
    case ArrayRef(b, s) =>
      PartTree(b, reduce);
      PartTree(s, reduce);
    case StructRef(b, _, _) =>
      PartTree(b, reduce);
    case FuncCall(f, args) =>
      PartTree(f, reduce);
      PrintedTrees(args, reduce);
    case UnaryOp(op, x) =>
      PartTree(x, reduce);
      assert Tree(Grouped(Printed(x, reduce))) == x;
    case TypeUnary(_, _) =>
    case Cast(t, x) =>
      PartTree(x, reduce);
    case ExprList(es) =>
      PrintedListTree(es, |es|, reduce);
      assert es[..|es|] == es;
    case _ =>
      InfixTree(e, reduce);
  }

  lemma {:induction false} InfixTree(e: Expr, reduce: bool)
    requires ShapeOf(e) == Printable && (e.BinaryOp? || e.TernaryOp? || e.Assignment?)
    ensures Tree(Printed(e, reduce)) == e
    decreases e, 0
  {
    match e
    case BinaryOp(op, l, r) =>
      SideTree(l, op, true, reduce);
      SideTree(r, op, false, reduce);
    case TernaryOp(c, a, b) =>
      PartTree(c, reduce);
      PartTree(a, reduce);
      PartTree(b, reduce);
    case Assignment(op, l, r) =>
      PartTree(l, reduce);
      PartTree(r, reduce);
  }

  lemma {:induction false} SideTree(e: Expr, op: BinOp, isLeft: bool, reduce: bool)
    requires ShapeOf(e) == Printable
    ensures Tree(PrintedSide(e, op, isLeft, reduce)) == e
    decreases e, 3
  {
    PartTree(e, reduce);
  }

  lemma {:induction false} PartTree(e: Expr, reduce: bool)
    requires ShapeOf(e) == Printable
    ensures Tree(Printed(e, reduce)) == e
    ensures Tree(PrintedExpr(e, reduce)) == e && Tree(Grouped(PrintedExpr(e, reduce))) == e
    ensures Tree(PrintedOperand(e, reduce)) == e && Tree(PrintedValue(e, reduce)) == e
    decreases e, 2
  {
    PrintedTree(e, reduce);
    WrappedTree(e, reduce);
  }

  lemma {:induction false} PrintedTrees(args: seq<Expr>, reduce: bool)
    requires forall i | 0 <= i < |args| :: ShapeOf(args[i]) == Printable
    ensures Trees(PrintedArguments(args, reduce)) == args
    decreases args, 0
  {
    if args != [] {
      PartTree(args[0], reduce);
      PrintedTrees(args[1..], reduce);
      assert PrintedArguments(args, reduce)[1..] == PrintedArguments(args[1..], reduce);
      assert args == [args[0]] + args[1..];
    }
  }

  lemma {:induction false} PrintedListTree(es: seq<Expr>, n: nat, reduce: bool)
    requires 1 <= n <= |es| && !es[0].ExprList? && forall i | 0 <= i < |es| :: ShapeOf(es[i]) == Printable
    ensures Tree(PrintedList(es, n, reduce)) == if n == 1 then es[0] else ExprList(es[..n])
    decreases es, n
  {
    PartTree(es[n - 1], reduce);
    if n > 1 {
      PrintedListTree(es, n - 1, reduce);
      assert es[..n] == es[..n - 1] + [es[n - 1]];
      assert es[..1] == [es[0]];
    }
  }

  // its place in the grammar

  /** A phrase of a class is one of every looser class, and of every looser nonterminal. */
  lemma {:induction false} Climbs(c: Class, d: Class, s: Phrase)
    requires Fits(BinaryExpression(c), s) && Height(c) <= Height(d)
    ensures Fits(BinaryExpression(d), s)
    decreases Height(d)
  {
    if c != d {
      var t := Tighter(d);
      assert t.BinaryExpression? && Height(t.class_) == Height(d) - 1;
      Climbs(c, t.class_, s);
      if s.Infix? && s.op in Operators(d) {
        NotTighterClass(c, s);
        assert false;
      }
    }
  }

  /** An infix phrase of a class has an operator of that class or a tighter one. */
  lemma {:induction false} NotTighterClass(c: Class, s: Phrase)
    requires Fits(BinaryExpression(c), s) && s.Infix?
    ensures Height(ClassOf(s.op)) <= Height(c)
    decreases Height(c)
  {
    if s.op in Operators(c) {
    } else if c == Multiplicative {
      InfixIsNoUnary(s);
    } else {
      NotTighterClass(Tighter(c).class_, s);
    }
  }

  lemma InfixIsNoUnary(s: Phrase)
    ensures s.Infix? ==> !Fits(UnaryExpression, s)
  {
    if s.Infix? {
      assert !Fits(PrimaryExpression, s) && !Fits(PostfixExpression, s);
    }
  }

  lemma {:induction false} UnaryClimbs(c: Class, s: Phrase)
    requires Fits(UnaryExpression, s)
    ensures Fits(BinaryExpression(c), s) && Fits(Tighter(c), s)
    decreases Height(c)
  {
    InfixIsNoUnary(s);
    if c == Multiplicative {
      assert Tighter(c) == UnaryExpression;
    } else {
      UnaryClimbs(Tighter(c).class_, s);
      assert Tighter(c) == BinaryExpression(Tighter(c).class_);
    }
    assert Fits(Tighter(c), s);
  }

  lemma BinaryIsAny(c: Class, s: Phrase)
    requires Fits(BinaryExpression(c), s)
    requires s.Infix?
    ensures Fits(AssignmentExpression, s) && Fits(AnyExpression, s)
  {
    Climbs(c, LogicalOr, s);
    assert Fits(ConditionalExpression, s);
  }

  lemma UnaryIsAny(s: Phrase)
    requires Fits(UnaryExpression, s)
    ensures Fits(ConditionalExpression, s) && Fits(AssignmentExpression, s) && Fits(AnyExpression, s)
  {
    UnaryClimbs(LogicalOr, s);
  }

  lemma GroupedFits(inner: Phrase)
    requires Fits(AnyExpression, inner)
    ensures Fits(PostfixExpression, Grouped(inner)) && Fits(UnaryExpression, Grouped(inner))
  {
  }

  /** The nonterminal of a printed expression. */
  function KindOf(e: Expr): Nonterminal {
    match e
    case Constant(_) | Id(_) | ArrayRef(_, _) | StructRef(_, _, _) | FuncCall(_, _) => PostfixExpression
    case UnaryOp(op, _) => if op == PostInc || op == PostDec then PostfixExpression else UnaryExpression
    case TypeUnary(_, _) | Cast(_, _) => UnaryExpression
    case BinaryOp(op, _, _) => BinaryExpression(ClassOf(op))
    case TernaryOp(_, _, _) => ConditionalExpression
    case Assignment(_, _, _) => AssignmentExpression
    case ExprList(_) => AnyExpression
  }

  lemma {:induction false} PrintedFits(e: Expr, reduce: bool)
    requires ShapeOf(e) == Printable
    ensures Fits(KindOf(e), Printed(e, reduce))
    decreases e, 1
  {
    match e
    case Constant(_) =>
    case Id(_) =>
    case ArrayRef(b, s) =>
      OperandFits(b, reduce);
      AnyFits(s, reduce);
    case StructRef(b, _, _) =>
      OperandFits(b, reduce);
    case FuncCall(f, args) =>
      OperandFits(f, reduce);
      ArgumentsFit(args, reduce);
    case UnaryOp(op, x) =>
      UnaryFits(op, x, reduce);
    case TypeUnary(_, _) =>
    case Cast(t, x) =>
      OperandFits(x, reduce);
    case BinaryOp(op, l, r) =>
      SideFits(l, op, true, reduce);
      SideFits(r, op, false, reduce);
    case TernaryOp(c, a, b) =>
      ChosenFits(c, a, b, reduce);
    case Assignment(op, l, r) =>
      AssignedFits(op, l, r, reduce);
    case ExprList(es) =>
      ListFits(es, |es|, reduce);
  }

  lemma {:induction false} UnaryFits(op: UnOp, x: Expr, reduce: bool)
    requires ShapeOf(x) == Printable
    ensures Fits(KindOf(UnaryOp(op, x)), Printed(UnaryOp(op, x), reduce))
    decreases x, 9
  {
    OperandFits(x, reduce);
    if op == Sizeof {
      AnyFits(x, reduce);
      GroupedFits(Printed(x, reduce));
    }
  }

  lemma {:induction false} AnyFits(e: Expr, reduce: bool)
    requires ShapeOf(e) == Printable
    ensures Fits(AnyExpression, Printed(e, reduce))
    ensures !e.ExprList? ==> Fits(AssignmentExpression, Printed(e, reduce))
    decreases e, 2
  {
    PrintedFits(e, reduce);
    if e.BinaryOp? {
      BinaryIsAny(ClassOf(e.op), Printed(e, reduce));
    } else if KindOf(e) == PostfixExpression || KindOf(e) == UnaryExpression {
      assert Fits(UnaryExpression, Printed(e, reduce));
      UnaryIsAny(Printed(e, reduce));
    }
  }

  /** An expression that stands where a list would need parentheses. */
  lemma {:induction false} ExprFits(e: Expr, reduce: bool)
    requires ShapeOf(e) == Printable
    ensures Fits(AssignmentExpression, PrintedExpr(e, reduce)) && Fits(AnyExpression, PrintedExpr(e, reduce))
    decreases e, 3
  {
    AnyFits(e, reduce);
    if e.ExprList? {
      GroupedFits(Printed(e, reduce));
      UnaryIsAny(PrintedExpr(e, reduce));
    }
  }

  lemma {:induction false} OperandFits(e: Expr, reduce: bool)
    requires ShapeOf(e) == Printable
    ensures Fits(PostfixExpression, PrintedOperand(e, reduce)) && Fits(UnaryExpression, PrintedOperand(e, reduce))
    decreases e, 4
  {
    if IsSimple(e) {
      PrintedFits(e, reduce);
    } else {
      ExprFits(e, reduce);
      GroupedFits(PrintedExpr(e, reduce));
    }
  }

  lemma {:induction false} SideFits(e: Expr, op: BinOp, isLeft: bool, reduce: bool)
    requires ShapeOf(e) == Printable
    ensures Fits(if isLeft then BinaryExpression(ClassOf(op)) else Tighter(ClassOf(op)),
                 PrintedSide(e, op, isLeft, reduce))
    decreases e, 5
  {
    var c := ClassOf(op);
    if e.BinaryOp? && Bare(e, op, isLeft, reduce) {
      PrintedFits(e, reduce);
      LevelsFollowClasses(op);
      LevelsFollowClasses(e.op);
      if isLeft {
        Climbs(ClassOf(e.op), c, Printed(e, reduce));
      } else {
        assert c != Multiplicative && Height(Tighter(c).class_) == Height(c) - 1;
        Climbs(ClassOf(e.op), Tighter(c).class_, Printed(e, reduce));
      }
    } else {
      OperandFits(e, reduce);
      UnaryClimbs(c, PrintedOperand(e, reduce));
    }
  }

  lemma {:induction false} ArgumentsFit(args: seq<Expr>, reduce: bool)
    requires forall i | 0 <= i < |args| :: ShapeOf(args[i]) == Printable
    ensures forall i | 0 <= i < |args| :: Fits(AssignmentExpression, PrintedArguments(args, reduce)[i])
    decreases args, 0
  {
    if args != [] {
      ExprFits(args[0], reduce);
      ArgumentsFit(args[1..], reduce);
    }
  }

  lemma {:induction false} ChosenFits(c: Expr, a: Expr, b: Expr, reduce: bool)
    requires ShapeOf(c) == Printable && ShapeOf(a) == Printable && ShapeOf(b) == Printable
    ensures Fits(ConditionalExpression,
                 Chosen(Grouped(PrintedExpr(c, reduce)), Grouped(PrintedExpr(a, reduce)),
                        Grouped(PrintedExpr(b, reduce))))
    decreases TernaryOp(c, a, b), 0
  {
    GroupFits(c, reduce);
    GroupFits(a, reduce);
    GroupFits(b, reduce);
    ChosenIsConditional(Grouped(PrintedExpr(c, reduce)), Grouped(PrintedExpr(a, reduce)),
                        Grouped(PrintedExpr(b, reduce)));
  }

  lemma ChosenIsConditional(cond: Phrase, yes: Phrase, no: Phrase)
    requires Fits(UnaryExpression, cond) && Fits(AnyExpression, yes) && Fits(ConditionalExpression, no)
    ensures Fits(ConditionalExpression, Chosen(cond, yes, no))
  {
    UnaryClimbs(LogicalOr, cond);
  }

  lemma {:induction false} GroupFits(e: Expr, reduce: bool)
    requires ShapeOf(e) == Printable
    ensures var g := Grouped(PrintedExpr(e, reduce));
            && Fits(UnaryExpression, g) && Fits(ConditionalExpression, g)
            && Fits(AssignmentExpression, g) && Fits(AnyExpression, g)
    decreases e, 4
  {
    ExprFits(e, reduce);
    GroupedFits(PrintedExpr(e, reduce));
    UnaryIsAny(Grouped(PrintedExpr(e, reduce)));
  }

  lemma {:induction false} AssignedFits(op: AssignOp, l: Expr, r: Expr, reduce: bool)
    requires ShapeOf(l) == Printable && ShapeOf(r) == Printable && UnaryShaped(l)
    ensures Fits(AssignmentExpression, Printed(Assignment(op, l, r), reduce))
    decreases Assignment(op, l, r), 0
  {
    PrintedFits(l, reduce);
    assert Fits(UnaryExpression, Printed(l, reduce));
    if r.Assignment? {
      GroupFits(r, reduce);
    } else {
      ExprFits(r, reduce);
    }
  }

  lemma {:induction false} ListFits(es: seq<Expr>, n: nat, reduce: bool)
    requires 1 <= n <= |es| && forall i | 0 <= i < |es| :: ShapeOf(es[i]) == Printable
    ensures Fits(AnyExpression, PrintedList(es, n, reduce))
    decreases es, n
  {
    ExprFits(es[n - 1], reduce);
    if n > 1 {
      ListFits(es, n - 1, reduce);
    }
  }

  // no `sizeof (type)` next to an operator

  /** Only unary expressions, casts, conditionals, assignments and lists may end in `sizeof (type)`. */
  predicate MayEndInSizeof(e: Expr) {
    !IsSimple(e) && !e.BinaryOp?
  }

  lemma {:induction false} PartApart(e: Expr, reduce: bool)
    ensures SizeofApart(Printed(e, reduce)) && SizeofApart(PrintedExpr(e, reduce))
    ensures SizeofApart(PrintedOperand(e, reduce)) && SizeofApart(PrintedValue(e, reduce))
    ensures SizeofApart(Grouped(PrintedExpr(e, reduce)))
    decreases e, 2
  {
    PrintedApart(e, reduce);
    assert SizeofApart(Grouped(Printed(e, reduce)));
  }

  lemma {:induction false} SideApart(e: Expr, op: BinOp, isLeft: bool, reduce: bool)
    ensures SizeofApart(PrintedSide(e, op, isLeft, reduce)) && !EndsInSizeof(PrintedSide(e, op, isLeft, reduce))
    decreases e, 3
  {
    PartApart(e, reduce);
    PrintedApart(e, reduce);
  }

  lemma {:induction false} PrintedApart(e: Expr, reduce: bool)
    ensures SizeofApart(Printed(e, reduce))
    ensures EndsInSizeof(Printed(e, reduce)) ==> MayEndInSizeof(e)
    decreases e, 1
  {
    match e
    case ArrayRef(b, s) =>
      PartApart(b, reduce);
      PartApart(s, reduce);
    case StructRef(b, _, _) =>
      PartApart(b, reduce);
    case FuncCall(f, args) =>
      PartApart(f, reduce);
      ArgumentsApart(args, reduce);
    case UnaryOp(op, x) =>
      PartApart(x, reduce);
      assert SizeofApart(Grouped(Printed(x, reduce)));
    case Cast(t, x) =>
      PartApart(x, reduce);
    case ExprList(es) =>
      if es != [] {
        ListApart(es, |es|, reduce);
      }
    case Constant(_) =>
    case Id(_) =>
    case TypeUnary(_, _) =>
    case _ =>
      InfixApart(e, reduce);
  }

  lemma {:induction false} InfixApart(e: Expr, reduce: bool)
    requires e.BinaryOp? || e.TernaryOp? || e.Assignment?
    ensures SizeofApart(Printed(e, reduce))
    ensures EndsInSizeof(Printed(e, reduce)) ==> MayEndInSizeof(e)
    decreases e, 0
  {
    match e
    case BinaryOp(op, l, r) =>
      SideApart(l, op, true, reduce);
      SideApart(r, op, false, reduce);
    case TernaryOp(c, a, b) =>
      PartApart(c, reduce);
      PartApart(a, reduce);
      PartApart(b, reduce);
    case Assignment(op, l, r) =>
      PartApart(l, reduce);
      PartApart(r, reduce);
  }

  lemma {:induction false} ArgumentsApart(args: seq<Expr>, reduce: bool)
    ensures forall i | 0 <= i < |args| :: SizeofApart(PrintedArguments(args, reduce)[i])
    decreases args
  {
    if args != [] {
      PartApart(args[0], reduce);
      ArgumentsApart(args[1..], reduce);
    }
  }

  lemma {:induction false} ListApart(es: seq<Expr>, n: nat, reduce: bool)
    requires 1 <= n <= |es|
    ensures SizeofApart(PrintedList(es, n, reduce))
    decreases es, n
  {
    PartApart(es[n - 1], reduce);
    if n > 1 {
      ListApart(es, n - 1, reduce);
    }
  }

  /** What the printer writes for an expression is a phrase whose tree is that expression. */
  lemma PrinterFollowsGrammar(e: Expr, reduce: bool)
    requires WellFormed(e)
    ensures var s := Printed(e, reduce);
            Text(s) == Visit(e, reduce) && Tree(s) == e && Fits(AnyExpression, s) && SizeofApart(s)
  {
    PrintedText(e, reduce);
    PrintedTree(e, reduce);
    AnyFits(e, reduce);
    PrintedApart(e, reduce);
  }

  /** Operators of class `c` bind looser than those of class `d`. */
  predicate Looser(c: Class, d: Class)
    decreases Height(c)
  {
    c != Multiplicative && (Tighter(c) == BinaryExpression(d) || Looser(Tighter(c).class_, d))
  }

  lemma {:induction false} LooserIsHigher(c: Class, d: Class)
    requires Looser(c, d)
    ensures Height(d) < Height(c)
    decreases Height(c)
  {
    if Tighter(c) != BinaryExpression(d) {
      LooserIsHigher(Tighter(c).class_, d);
    }
  }

  /** A name, a constant or anything in parentheses. */
  ghost predicate IsSingle(s: Phrase) {
    Fits(PrimaryExpression, s) && SizeofApart(s) && !EndsInSizeof(s)
  }

  lemma SingleClimbs(c: Class, s: Phrase)
    requires IsSingle(s)
    ensures Fits(BinaryExpression(c), s) && Fits(Tighter(c), s)
  {
    assert Fits(PostfixExpression, s) && Fits(UnaryExpression, s);
    UnaryClimbs(c, s);
  }

  lemma InfixFits(c: Class, op: BinOp, l: Phrase, r: Phrase)
    requires op in Operators(c) && Fits(BinaryExpression(c), l) && Fits(Tighter(c), r)
    ensures Fits(BinaryExpression(c), Infix(op, l, r)) && Fits(AnyExpression, Infix(op, l, r))
  {
    BinaryIsAny(c, Infix(op, l, r));
  }

  lemma TighterFits(c: Class, d: Class, s: Phrase)
    requires Looser(c, d) && Fits(BinaryExpression(d), s)
    ensures Fits(Tighter(c), s)
  {
    LooserIsHigher(c, d);
    Climbs(d, Tighter(c).class_, s);
  }

  /** Of two operators the one of the tighter class takes the operand between them. */
  lemma RightOperandTaken(c: Class, lo: BinOp, d: Class, hi: BinOp, x: Phrase, y: Phrase, z: Phrase)
    requires lo in Operators(c) && hi in Operators(d) && Looser(c, d) && IsSingle(x) && IsSingle(y) && IsSingle(z)
    ensures Parse(Text(x) + ([TBin(lo)] + (Text(y) + ([TBin(hi)] + Text(z)))))
         == Got(BinaryOp(lo, Tree(x), BinaryOp(hi, Tree(y), Tree(z))), [])
  {
    var s := Infix(lo, x, Infix(hi, y, z));
    SingleClimbs(c, x);
    SingleClimbs(d, y);
    SingleClimbs(d, z);
    InfixFits(d, hi, y, z);
    TighterFits(c, d, s.right);
    InfixFits(c, lo, x, s.right);
    ParserFollowsGrammar(s);
  }

  /** So it does on the left, where also operators of one class group. */
  lemma LeftOperandTaken(c: Class, lo: BinOp, d: Class, hi: BinOp, x: Phrase, y: Phrase, z: Phrase)
    requires lo in Operators(c) && hi in Operators(d) && (Looser(c, d) || c == d)
    requires IsSingle(x) && IsSingle(y) && IsSingle(z)
    ensures Parse(Text(x) + ([TBin(hi)] + (Text(y) + ([TBin(lo)] + Text(z)))))
         == Got(BinaryOp(lo, BinaryOp(hi, Tree(x), Tree(y)), Tree(z)), [])
  {
    var s := Infix(lo, Infix(hi, x, y), z);
    SingleClimbs(d, x);
    SingleClimbs(d, y);
    SingleClimbs(c, z);
    InfixFits(d, hi, x, y);
    if c != d {
      LooserIsHigher(c, d);
    }
    Climbs(d, c, s.left);
    InfixFits(c, lo, s.left, z);
    ParserFollowsGrammar(s);
    Regroup(Text(x), [TBin(hi)], Text(y), [TBin(lo)] + Text(z));
  }

  /** A text that can be read as a phrase at all can be read in one way only. */
  lemma GrammarIsUnambiguous(s1: Phrase, s2: Phrase)
    requires Fits(AnyExpression, s1) && Fits(AnyExpression, s2) && SizeofApart(s1) && SizeofApart(s2)
    requires Text(s1) == Text(s2)
    ensures Tree(s1) == Tree(s2)
  {
    ParserFollowsGrammar(s1);
    ParserFollowsGrammar(s2);
  }

  // ----- declarators -----

  /** The declarators of section 6.7.5, with all their parentheses. */
  datatype Declarator =
    | Declared(name: seq<string>)
    | Starred(quals: seq<string>, of: Declarator)
    | Dimensioned(of: Declarator, dimQuals: seq<DimQual>, dim: Dim)
    | Taking(of: Declarator, args: Args)
    | Enclosed(of: Declarator)

  function DeclaratorText(d: Declarator, reduce: bool): seq<Token> {
    match d
    case Declared(name) => if name == [] then [] else [TId(name[0])]
    case Starred(quals, of) => [TBin(Times)] + (Quals(quals) + DeclaratorText(of, reduce))
    case Dimensioned(of, quals, dim) =>
      DeclaratorText(of, reduce) + ([TLBracket] + (DimQuals(quals) + (VisitDim(dim, reduce) + [TRBracket])))
    case Taking(of, args) => DeclaratorText(of, reduce) + ([TLParen] + (VisitArgs(args, reduce) + [TRParen]))
    case Enclosed(of) => [TLParen] + (DeclaratorText(of, reduce) + [TRParen])
  }

  /** What the name is declared as, read from the name outwards: what stands next to the
      name comes first. */
  function Declares(d: Declarator): seq<Modifier> {
    match d
    case Declared(_) => []
    case Starred(quals, of) => Declares(of) + [Ptr(quals)]
    case Dimensioned(of, quals, dim) => Declares(of) + [Array(quals, dim)]
    case Taking(of, args) => Declares(of) + [Func(args)]
    case Enclosed(of) => Declares(of)
  }

  /** A suffix may follow a direct declarator only, which is one without a star in front. */
  predicate IsDeclarator(d: Declarator) {
    match d
    case Declared(_) => true
    case Starred(_, of) => IsDeclarator(of)
    case Dimensioned(of, _, _) => IsDeclarator(of) && !of.Starred?
    case Taking(of, _) => IsDeclarator(of) && !of.Starred?
    case Enclosed(of) => IsDeclarator(of)
  }

  function Outer(m: Modifier, of: Declarator): Declarator {
    match m
    case Ptr(quals) => Starred(quals, of)
    case Array(quals, dim) => Dimensioned(of, quals, dim)
    case Func(args) => Taking(of, args)
  }

  /** The declarator that the printer writes. */
  function PrintedDeclarator(name: seq<string>, mods: seq<Modifier>): Declarator
    decreases |mods|
  {
    if |mods| == 0 then Declared(name)
    else
      var inner := PrintedDeclarator(name, mods[..|mods| - 1]);
      var m := mods[|mods| - 1];
      Outer(m, if !m.Ptr? && |mods| > 1 && mods[|mods| - 2].Ptr? then Enclosed(inner) else inner)
  }

  lemma {:induction false} PrintedIsDeclarator(name: seq<string>, mods: seq<Modifier>)
    ensures var d := PrintedDeclarator(name, mods);
            IsDeclarator(d) && (d.Starred? <==> |mods| > 0 && mods[|mods| - 1].Ptr?)
    decreases |mods|
  {
    if |mods| > 0 {
      PrintedIsDeclarator(name, mods[..|mods| - 1]);
    }
  }

  lemma {:induction false} PrintedDeclares(name: seq<string>, mods: seq<Modifier>)
    ensures Declares(PrintedDeclarator(name, mods)) == mods
    decreases |mods|
  {
    if |mods| > 0 {
      var last := |mods| - 1;
      PrintedDeclares(name, mods[..last]);
      OneMoreModifier(PrintedDeclarator(name, mods), PrintedDeclarator(name, mods[..last]), mods[last]);
      assert mods == mods[..last] + [mods[last]];
    }
  }

  lemma OneMoreModifier(d: Declarator, inner: Declarator, m: Modifier)
    requires d == Outer(m, inner) || d == Outer(m, Enclosed(inner))
    ensures Declares(d) == Declares(inner) + [m]
  {
  }

  lemma {:induction false} PrintedDeclaratorText(name: seq<string>, mods: seq<Modifier>, reduce: bool)
    ensures DeclaratorText(PrintedDeclarator(name, mods), reduce) == VisitChain(name, mods, reduce)
    decreases |mods|
  {
    if |mods| > 0 {
      var init := mods[..|mods| - 1];
      PrintedDeclaratorText(name, init, reduce);
      OuterText(mods[|mods| - 1], PrintedDeclarator(name, init), init, VisitChain(name, init, reduce), reduce);
      assert |init| > 0 ==> init[|init| - 1] == mods[|mods| - 2];
    }
  }

  lemma OuterText(m: Modifier, d: Declarator, init: seq<Modifier>, inner: seq<Token>, reduce: bool)
    requires DeclaratorText(d, reduce) == inner
    ensures DeclaratorText(Outer(m, if !m.Ptr? && |init| > 0 && init[|init| - 1].Ptr? then Enclosed(d) else d), reduce)
         == if m.Ptr? then [TBin(Times)] + (Quals(m.quals) + inner) else Wrapped(init, inner) + VisitSuffix(m, reduce)
  {
  }

  /** What the printer writes for a name and its modifiers is a declarator that declares it
      as just that. */
  lemma DeclaratorFollowsGrammar(name: seq<string>, mods: seq<Modifier>, reduce: bool)
    ensures var d := PrintedDeclarator(name, mods);
            IsDeclarator(d) && DeclaratorText(d, reduce) == VisitChain(name, mods, reduce) && Declares(d) == mods
  {
    PrintedIsDeclarator(name, mods);
    PrintedDeclares(name, mods);
    PrintedDeclaratorText(name, mods, reduce);
  }
}
