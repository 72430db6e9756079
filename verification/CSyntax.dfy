/** The C syntax trees and tokens that the pretty-printer and the parser share.

    A declarator is kept as the sequence of its modifiers, outermost first: the
    chain of `.type` links that ends in a TypeDecl (see DeclaratorSplice for the
    linked form). */
module CSyntax {

  /** What a parsing step returns: a value and the tokens that follow it. */
  datatype Parsed<+T> = Fail | Got(value: T, rest: seq<Token>)

  datatype BinOp =
    | LOr | LAnd | Or | Xor | And | Eq | Ne | Gt | Ge | Lt | Le
    | Shr | Shl | Plus | Minus | Times | Div | Mod

  datatype UnOp =
    | AddrOf | Deref | Pos | Neg | BitNot | LogNot
    | PreInc | PreDec | PostInc | PostDec | Sizeof

  /** Operators whose operand is a type name. */
  datatype TypeOp = SizeofType | AlignofType

  datatype AssignOp = Plain | Compound(op: BinOp)

  datatype Expr =
    | Constant(value: string)
    | Id(name: string)
    | ArrayRef(base: Expr, subscript: Expr)
    | StructRef(base: Expr, arrow: bool, field: string)
    | FuncCall(fn: Expr, args: seq<Expr>)
    | UnaryOp(uop: UnOp, operand: Expr)
    | TypeUnary(top: TypeOp, arg: TypeName)
    | Cast(to: TypeName, operand: Expr)
    | BinaryOp(op: BinOp, left: Expr, right: Expr)
    | TernaryOp(cond: Expr, iftrue: Expr, iffalse: Expr)
    | Assignment(aop: AssignOp, lvalue: Expr, rvalue: Expr)
    | ExprList(exprs: seq<Expr>)

  /** A basic type word: a keyword such as `unsigned`, or a typedef name. */
  datatype Word = Keyword(text: string) | TypedefName(text: string)

  datatype TypeName = TypeName(quals: seq<string>, names: seq<Word>, mods: seq<Modifier>)

  datatype Modifier =
    | Ptr(quals: seq<string>)
    | Array(dimQuals: seq<DimQual>, dim: Dim)
    | Func(args: Args)

  datatype DimQual = Static | Qualifier(text: string)

  /** The dimension of an array. The parser builds VLA dimensions as identifier
      nodes; `Star` is the one named `*` and `Bracket` the one named `]`. */
  datatype Dim = NoDim | Star | Bracket | Size(size: Expr)

  datatype Args = NoArgs | Names(ids: seq<string>) | Params(params: seq<Param>, ellipsis: bool)

  datatype Param = Param(storage: seq<string>, quals: seq<string>, names: seq<Word>,
                         declname: seq<string>, mods: seq<Modifier>)

  datatype Token =
    | TId(name: string)
    | TWord(word: Word)
    | TQual(text: string)
    | TStorage(text: string)
    | TStatic
    | TConst(text: string)
    | TBin(op: BinOp)
    | TAssign(aop: AssignOp)
    | TBitNot | TLogNot | TInc | TDec
    | TSizeof | TAlignof
    | TLParen | TRParen | TLBracket | TRBracket
    | TComma | TColon | TCondOp | TSemi
    | TPeriod | TArrow | TEllipsis

  predicate At(ts: seq<Token>, t: Token) {
    ts != [] && ts[0] == t
  }

  /** The precedence levels shared by the printer's `precedence_map` and the
      parser's `precedence` tuple; higher binds tighter. */
  function Prec(op: BinOp): (p: nat)
    ensures p <= 9
  {
    match op
    case LOr => 0
    case LAnd => 1
    case Or => 2
    case Xor => 3
    case And => 4
    case Eq | Ne => 5
    case Gt | Ge | Lt | Le => 6
    case Shr | Shl => 7
    case Plus | Minus => 8
    case Times | Div | Mod => 9
  }
}
