/** Comparing C types: a loop that strips one layer of both types at a time and looks
    through typedefs, with recursion into function parameters. */
module SameType {
  import opened Prelude

  /** `body` tells apart what structs, unions and enums contain. */
  datatype Leaf =
    | Ident(names: seq<string>)
    | Struct(tag: Option<string>, body: nat)
    | Union(tag: Option<string>, body: nat)
    | Enum(tag: Option<string>, body: nat)
    | Typeof(expr: nat)

  /** A type in a declaration; qualifiers, dimensions and declared names are carried
      along but never compared. */
  datatype Type =
    | Ptr(quals: nat, of: Type)
    | Array(dim: nat, of: Type)
    | Func(args: Args, of: Type)
    | Named(leaf: Leaf, quals: nat)

  /** A function declarator may have no parameter list at all. */
  datatype Args = NoArgs | ParamList(params: seq<Param>)

  /** A parameter: `...`, a bare name of an old-style list, a declaration or type name,
      or a declaration of a tag alone. */
  datatype Param = Ellipsis | Name(name: string) | Typed(declared: Option<string>, of: Type) | TagOnly(tag: string)

  /** The typedefs in scope. */
  type Table = map<string, Type>

  predicate IsTypedefName(t: Type, table: Table) {
    t.Named? && t.leaf.Ident? && |t.leaf.names| == 1 && t.leaf.names[0] in table
  }

  function ParamsOf(t: Type): seq<Param>
    requires t.Func?
  {
    if t.args.ParamList? then t.args.params else []
  }

  // ----- acyclic tables -----

  /** Every typedef name in `t` has a rank below `r`. */
  predicate Below(t: Type, table: Table, rank: string -> nat, r: nat)
    decreases t
  {
    match t
    case Ptr(_, of) => Below(of, table, rank, r)
    case Array(_, of) => Below(of, table, rank, r)
    case Func(args, of) => Below(of, table, rank, r) && (args.ParamList? ==> ParamsBelow(args.params, table, rank, r))
    case Named(leaf, _) => IsTypedefName(t, table) ==> rank(leaf.names[0]) < r
  }

  predicate ParamsBelow(ps: seq<Param>, table: Table, rank: string -> nat, r: nat)
    decreases ps
  {
    forall i | 0 <= i < |ps| :: ParamBelow(ps[i], table, rank, r)
  }

  predicate ParamBelow(p: Param, table: Table, rank: string -> nat, r: nat)
    decreases p
  {
    p.Typed? ==> Below(p.of, table, rank, r)
  }

  /** Each definition mentions only names of lower rank. */
  ghost predicate Acyclic(table: Table, rank: string -> nat) {
    forall n | n in table :: Below(table[n], table, rank, rank(n))
  }

  // ----- canonical forms -----

  /** A type with every typedef resolved and everything that is not compared gone. `Any`
      stands for every integer-like type when similar types are allowed. */
  datatype Canonical =
    | CPtr(of: Canonical)
    | CArray(of: Canonical)
    | CFunc(params: seq<CParam>, of: Canonical)
    | CIdent(names: multiset<string>)
    | CStruct(tag: Option<string>)
    | CUnion(tag: Option<string>)
    | CEnum(tag: Option<string>)
    | CAny
    | CTypeof(expr: nat)

  datatype CParam = CEllipsis | CName(name: string) | CTyped(of: Canonical) | CTagOnly(tag: string)

  /** The canonical form, for types whose typedef names are below `r`. Inside a function
      type similar types are no longer allowed. */
  ghost function Canon(t: Type, similar: bool, table: Table, rank: string -> nat, r: nat): Canonical
    requires Acyclic(table, rank) && Below(t, table, rank, r)
    decreases r, t
  {
    match t
    case Ptr(_, of) => CPtr(Canon(of, similar, table, rank, r))
    case Array(_, of) => CArray(Canon(of, similar, table, rank, r))
    case Func(args, of) =>
      CFunc(if args.ParamList? then CanonParams(args.params, table, rank, r) else [], Canon(of, false, table, rank, r))
    case Named(leaf, _) =>
      if IsTypedefName(t, table) then Canon(table[leaf.names[0]], similar, table, rank, rank(leaf.names[0]))
      else CanonLeaf(leaf, similar)
  }

  function CanonLeaf(leaf: Leaf, similar: bool): Canonical {
    match leaf
    case Ident(names) => if similar then CAny else CIdent(multiset(names))
    case Struct(tag, _) => CStruct(tag)
    case Union(tag, _) => CUnion(tag)
    case Enum(tag, _) => if similar then CAny else CEnum(tag)
    case Typeof(expr) => CTypeof(expr)
  }

  ghost function CanonParams(ps: seq<Param>, table: Table, rank: string -> nat, r: nat): (cs: seq<CParam>)
    requires Acyclic(table, rank) && ParamsBelow(ps, table, rank, r)
    ensures |cs| == |ps|
    ensures forall i | 0 <= i < |ps| :: cs[i] == CanonParam(ps[i], table, rank, r)
    decreases r, ps
  {
    seq(|ps|, i requires 0 <= i < |ps| => CanonParam(ps[i], table, rank, r))
  }

  ghost function CanonParam(p: Param, table: Table, rank: string -> nat, r: nat): CParam
    requires Acyclic(table, rank) && ParamBelow(p, table, rank, r)
    decreases r, p
  {
    match p
    case Ellipsis => CEllipsis
    case Name(name) => CName(name)
    case Typed(_, of) => CTyped(Canon(of, false, table, rank, r))
    case TagOnly(tag) => CTagOnly(tag)
  }

  /** Nothing in a canonical form that the comparison refuses outright. */
  predicate Comparable(c: Canonical) {
    match c
    case CPtr(of) => Comparable(of)
    case CArray(of) => Comparable(of)
    case CFunc(params, of) => Comparable(of) && AllComparable(params)
    case CTypeof(_) => false
    case _ => true
  }

  predicate AllComparable(params: seq<CParam>) {
    forall i | 0 <= i < |params| :: ComparableParam(params[i])
  }

  predicate ComparableParam(p: CParam) {
    match p
    case CTyped(of) => Comparable(of)
    case CTagOnly(_) => false
    case _ => true
  }

  /** The two types have the same canonical form, and one that can be compared. */
  ghost predicate Agree(t1: Type, t2: Type, similar: bool, table: Table, rank: string -> nat, r1: nat, r2: nat)
    requires Acyclic(table, rank) && Below(t1, table, rank, r1) && Below(t2, table, rank, r2)
  {
    && Canon(t1, similar, table, rank, r1) == Canon(t2, similar, table, rank, r2)
    && Comparable(Canon(t1, similar, table, rank, r1))
  }

  /** One layer off both types. */
  lemma PeelLayer(t1: Type, t2: Type, similar: bool, table: Table, rank: string -> nat, r1: nat, r2: nat)
    requires Acyclic(table, rank) && Below(t1, table, rank, r1) && Below(t2, table, rank, r2)
    requires (t1.Ptr? && t2.Ptr?) || (t1.Array? && t2.Array?)
    ensures Agree(t1, t2, similar, table, rank, r1, r2) == Agree(t1.of, t2.of, similar, table, rank, r1, r2)
  {
  }

  lemma PeelFunction(t1: Type, t2: Type, similar: bool, table: Table, rank: string -> nat, r1: nat, r2: nat)
    requires Acyclic(table, rank) && Below(t1, table, rank, r1) && Below(t2, table, rank, r2)
    requires t1.Func? && t2.Func?
    ensures ParamsBelow(ParamsOf(t1), table, rank, r1) && ParamsBelow(ParamsOf(t2), table, rank, r2)
    ensures Agree(t1, t2, similar, table, rank, r1, r2)
         == (&& Agree(t1.of, t2.of, false, table, rank, r1, r2)
             && CanonParams(ParamsOf(t1), table, rank, r1) == CanonParams(ParamsOf(t2), table, rank, r2)
             && AllComparable(CanonParams(ParamsOf(t1), table, rank, r1)))
  {
    assert Canon(t1, similar, table, rank, r1).params == CanonParams(ParamsOf(t1), table, rank, r1);
    assert Canon(t2, similar, table, rank, r2).params == CanonParams(ParamsOf(t2), table, rank, r2);
  }

  /** The comparison of two leaves; leaves of different kinds are never the same. */
  function SameLeaf(l1: Leaf, l2: Leaf, similar: bool): bool {
    match (l1, l2)
    case (Struct(a, _), Struct(b, _)) => a == b
    case (Union(a, _), Union(b, _)) => a == b
    case (Enum(a, _), Enum(b, _)) => similar || a == b
    case (Ident(a), Ident(b)) => similar || multiset(a) == multiset(b)
    case (Enum(_, _), Ident(_)) => similar
    case (Ident(_), Enum(_, _)) => similar
    case _ => false
  }

  lemma LeavesAgree(t1: Type, t2: Type, similar: bool, table: Table, rank: string -> nat, r1: nat, r2: nat)
    requires Acyclic(table, rank) && Below(t1, table, rank, r1) && Below(t2, table, rank, r2)
    requires t1.Named? && t2.Named? && !IsTypedefName(t1, table) && !IsTypedefName(t2, table)
    ensures Agree(t1, t2, similar, table, rank, r1, r2) == SameLeaf(t1.leaf, t2.leaf, similar)
  {
  }

  /** Of structs, unions and enums only the tags are compared, so that all anonymous ones of
      a kind are the same type, whatever they contain. */
  lemma OnlyTagsCount(tag1: Option<string>, tag2: Option<string>, body1: nat, body2: nat, quals1: nat, quals2: nat,
                      similar: bool, table: Table, rank: string -> nat, r: nat)
    requires Acyclic(table, rank)
    ensures Agree(Named(Struct(tag1, body1), quals1), Named(Struct(tag2, body2), quals2), similar, table, rank, r, r)
       <==> tag1 == tag2
    ensures Agree(Named(Union(tag1, body1), quals1), Named(Union(tag2, body2), quals2), similar, table, rank, r, r)
       <==> tag1 == tag2
    ensures Agree(Named(Enum(tag1, body1), quals1), Named(Enum(tag2, body2), quals2), similar, table, rank, r, r)
       <==> similar || tag1 == tag2
  {
    LeavesAgree(Named(Struct(tag1, body1), quals1), Named(Struct(tag2, body2), quals2), similar, table, rank, r, r);
    LeavesAgree(Named(Union(tag1, body1), quals1), Named(Union(tag2, body2), quals2), similar, table, rank, r, r);
    LeavesAgree(Named(Enum(tag1, body1), quals1), Named(Enum(tag2, body2), quals2), similar, table, rank, r, r);
  }

  /** Types of different kinds disagree once typedefs are resolved. */
  lemma KindsDisagree(t1: Type, t2: Type, similar: bool, table: Table, rank: string -> nat, r1: nat, r2: nat)
    requires Acyclic(table, rank) && Below(t1, table, rank, r1) && Below(t2, table, rank, r2)
    requires !IsTypedefName(t1, table) && !IsTypedefName(t2, table)
    requires t1.Ptr? != t2.Ptr? || t1.Array? != t2.Array? || t1.Func? != t2.Func?
    ensures !Agree(t1, t2, similar, table, rank, r1, r2)
  {
  }

  // ----- the comparison -----

  /** Looks through typedefs until something else is found. */
  method ResolveTypedefs(t: Type, table: Table, ghost rank: string -> nat, ghost r: nat)
    returns (res: Type, ghost s: nat)
    requires Acyclic(table, rank) && Below(t, table, rank, r)
    ensures !IsTypedefName(res, table)
    ensures s <= r && Below(res, table, rank, s)
    ensures s == r ==> res == t
    ensures forall similar ::
              Canon(res, similar, table, rank, s) == Canon(t, similar, table, rank, r)
  {
    res, s := t, r;
    while IsTypedefName(res, table)
      invariant s <= r && Below(res, table, rank, s) && (s == r ==> res == t)
      invariant forall similar ::
                  Canon(res, similar, table, rank, s) == Canon(t, similar, table, rank, r)
      decreases s
    {
      s := rank(res.leaf.names[0]);
      res := table[res.leaf.names[0]];
    }
  }

  method SameParamType(p1: Param, p2: Param, table: Table, ghost rank: string -> nat, ghost r1: nat, ghost r2: nat)
    returns (same: bool)
    requires Acyclic(table, rank)
    requires ParamBelow(p1, table, rank, r1) && ParamBelow(p2, table, rank, r2)
    ensures same == SameParam(p1, p2, table, rank, r1, r2)
    ensures same <==> CanonParam(p1, table, rank, r1) == CanonParam(p2, table, rank, r2)
                      && ComparableParam(CanonParam(p1, table, rank, r1))
    decreases r1, p1
  {
    if p1.Ellipsis? && p2.Ellipsis? {
      return true;
    }
    if p1.Name? && p2.Name? {
      return p1.name == p2.name;
    }
    if p1.Typed? && p2.Typed? {
      same := SameType(p1.of, p2.of, table, false, rank, r1, r2);
      return;
    }
    return false;
  }

  method SameParams(ps1: seq<Param>, ps2: seq<Param>, table: Table, ghost rank: string -> nat, ghost r1: nat,
                    ghost r2: nat)
    returns (same: bool)
    requires Acyclic(table, rank) && ParamsBelow(ps1, table, rank, r1) && ParamsBelow(ps2, table, rank, r2)
    requires |ps1| == |ps2|
    ensures same <==> CanonParams(ps1, table, rank, r1) == CanonParams(ps2, table, rank, r2)
                      && AllComparable(CanonParams(ps1, table, rank, r1))
    decreases r1, ps1
  {
    ghost var c1, c2 := CanonParams(ps1, table, rank, r1), CanonParams(ps2, table, rank, r2);
    for i := 0 to |ps1|
      invariant forall j | 0 <= j < i :: c1[j] == c2[j] && ComparableParam(c1[j])
    {
      var ok := SameParamType(ps1[i], ps2[i], table, rank, r1, r2);
      if !ok {
        return false;
      }
    }
    return true;
  }

  method SameType(t1: Type, t2: Type, table: Table, allowSimilar: bool,
                  ghost rank: string -> nat, ghost r1: nat, ghost r2: nat)
    returns (same: bool)
    requires Acyclic(table, rank) && Below(t1, table, rank, r1) && Below(t2, table, rank, r2)
    ensures same == Same(t1, t2, allowSimilar, table, rank, r1, r2)
    ensures same == Agree(t1, t2, allowSimilar, table, rank, r1, r2)
    decreases r1, t1
  {
    AgreeIsSame(t1, t2, allowSimilar, table, rank, r1, r2);
    var type1, type2, similar := t1, t2, allowSimilar;
    ghost var s1: nat, s2: nat := r1, r2;
    while true
      invariant Below(type1, table, rank, s1) && Below(type2, table, rank, s2)
      invariant s1 < r1 || (s1 == r1 && (type1 == t1 || type1 < t1))
      invariant Agree(t1, t2, allowSimilar, table, rank, r1, r2)
             == Agree(type1, type2, similar, table, rank, s1, s2)
      decreases s1, type1
    {
      ghost var was1, was2, u1, u2 := type1, type2, s1, s2;
      type1, s1 := ResolveTypedefs(type1, table, rank, s1);
      type2, s2 := ResolveTypedefs(type2, table, rank, s2);
      assert Agree(was1, was2, similar, table, rank, u1, u2) == Agree(type1, type2, similar, table, rank, s1, s2);
      if type1.Array? && type2.Array? {
        PeelLayer(type1, type2, similar, table, rank, s1, s2);
        type1, type2 := type1.of, type2.of;
        continue;
      }
      if type1.Ptr? && type2.Ptr? {
        PeelLayer(type1, type2, similar, table, rank, s1, s2);
        type1, type2 := type1.of, type2.of;
        continue;
      }
      if type1.Named? && type2.Named? {
        LeavesAgree(type1, type2, similar, table, rank, s1, s2);
        same := CompareLeaves(type1.leaf, type2.leaf, similar);
        return;
      }
      if type1.Func? && type2.Func? {
        PeelFunction(type1, type2, similar, table, rank, s1, s2);
        var params1, params2 := ParamsOf(type1), ParamsOf(type2);
        if |params1| != |params2| {
          return false;
        }
        if params1 != [] {
          var ok := SameParams(params1, params2, table, rank, s1, s2);
          if !ok {
            return false;
          }
        }
        type1, type2, similar := type1.of, type2.of, false;
        continue;
      }
      KindsDisagree(type1, type2, similar, table, rank, s1, s2);
      return false;
    }
  }

  /** The tests on leaves, in the order in which they are made. */
  method CompareLeaves(sub1: Leaf, sub2: Leaf, similar: bool) returns (same: bool)
    ensures same == SameLeaf(sub1, sub2, similar)
  {
    if sub1.Struct? && sub2.Struct? {
      return sub1.tag == sub2.tag;
    }
    if sub1.Union? && sub2.Union? {
      return sub1.tag == sub2.tag;
    }
    if similar && (sub1.Ident? || sub1.Enum?) && (sub2.Ident? || sub2.Enum?) {
      return true;
    }
    if sub1.Enum? && sub2.Enum? {
      return sub1.tag == sub2.tag;
    }
    if sub1.Ident? && sub2.Ident? {
      return multiset(sub1.names) == multiset(sub2.names);
    }
    return false;
  }

  // ----- what the comparison means -----

  /** Two types are the same, by rules on the types themselves: a typedef name is what it
      stands for; pointers and arrays are the same when what they point to or hold is;
      functions when they have as many parameters, pairwise the same, and the same result. */
  ghost predicate Same(t1: Type, t2: Type, similar: bool, table: Table, rank: string -> nat, r1: nat, r2: nat)
    requires Acyclic(table, rank) && Below(t1, table, rank, r1) && Below(t2, table, rank, r2)
    decreases r1, t1, r2
  {
    if IsTypedefName(t1, table) then
      Same(table[t1.leaf.names[0]], t2, similar, table, rank, rank(t1.leaf.names[0]), r2)
    else if IsTypedefName(t2, table) then
      Same(t1, table[t2.leaf.names[0]], similar, table, rank, r1, rank(t2.leaf.names[0]))
    else
      || (t1.Ptr? && t2.Ptr? && Same(t1.of, t2.of, similar, table, rank, r1, r2))
      || (t1.Array? && t2.Array? && Same(t1.of, t2.of, similar, table, rank, r1, r2))
      || (t1.Func? && t2.Func? && |ParamsOf(t1)| == |ParamsOf(t2)|
          && SameAll(t1.args, t2.args, table, rank, r1, r2) && Same(t1.of, t2.of, false, table, rank, r1, r2))
      || (t1.Named? && t2.Named? && SameNames(t1.leaf, t2.leaf, similar))
  }

  ghost predicate SameAll(a1: Args, a2: Args, table: Table, rank: string -> nat, r1: nat, r2: nat)
    requires Acyclic(table, rank)
    requires (a1.ParamList? ==> ParamsBelow(a1.params, table, rank, r1))
             && (a2.ParamList? ==> ParamsBelow(a2.params, table, rank, r2))
    decreases r1, a1
  {
    a1.ParamList? && a2.ParamList? && |a1.params| == |a2.params| ==>
      forall i | 0 <= i < |a1.params| :: SameParam(a1.params[i], a2.params[i], table, rank, r1, r2)
  }

  /** Inside a parameter list similar types are not enough. */
  ghost predicate SameParam(p1: Param, p2: Param, table: Table, rank: string -> nat, r1: nat, r2: nat)
    requires Acyclic(table, rank) && ParamBelow(p1, table, rank, r1) && ParamBelow(p2, table, rank, r2)
    decreases r1, p1
  {
    || (p1.Ellipsis? && p2.Ellipsis?)
    || (p1.Name? && p2.Name? && p1.name == p2.name)
    || (p1.Typed? && p2.Typed? && Same(p1.of, p2.of, false, table, rank, r1, r2))
  }

  /** The same words in any order, or the same tag on the same kind of type; where similar
      types will do, any words or enum are like any other. */
  predicate SameNames(l1: Leaf, l2: Leaf, similar: bool) {
    || (similar && (l1.Ident? || l1.Enum?) && (l2.Ident? || l2.Enum?))
    || (l1.Ident? && l2.Ident? && multiset(l1.names) == multiset(l2.names))
    || (l1.Struct? && l2.Struct? && l1.tag == l2.tag)
    || (l1.Union? && l2.Union? && l1.tag == l2.tag)
    || (l1.Enum? && l2.Enum? && l1.tag == l2.tag)
  }

  /** Having one comparable canonical form is being the same by these rules. */
  lemma {:induction false} AgreeIsSame(t1: Type, t2: Type, similar: bool, table: Table, rank: string -> nat, r1: nat,
                                       r2: nat)
    requires Acyclic(table, rank) && Below(t1, table, rank, r1) && Below(t2, table, rank, r2)
    ensures Agree(t1, t2, similar, table, rank, r1, r2) <==> Same(t1, t2, similar, table, rank, r1, r2)
    decreases r1, t1, r2
  {
    if IsTypedefName(t1, table) {
      var n := t1.leaf.names[0];
      AgreeIsSame(table[n], t2, similar, table, rank, rank(n), r2);
    } else if IsTypedefName(t2, table) {
      var n := t2.leaf.names[0];
      AgreeIsSame(t1, table[n], similar, table, rank, r1, rank(n));
    } else if (t1.Ptr? && t2.Ptr?) || (t1.Array? && t2.Array?) {
      PeelLayer(t1, t2, similar, table, rank, r1, r2);
      AgreeIsSame(t1.of, t2.of, similar, table, rank, r1, r2);
    } else if t1.Func? && t2.Func? {
      PeelFunction(t1, t2, similar, table, rank, r1, r2);
      AgreeIsSame(t1.of, t2.of, false, table, rank, r1, r2);
      ParamsAgree(t1.args, t2.args, table, rank, r1, r2);
    } else if t1.Named? && t2.Named? {
      LeavesAgree(t1, t2, similar, table, rank, r1, r2);
    } else {
      KindsDisagree(t1, t2, similar, table, rank, r1, r2);
    }
  }

  function Listed(a: Args): seq<Param> {
    if a.ParamList? then a.params else []
  }

  lemma {:induction false} ParamsAgree(a1: Args, a2: Args, table: Table, rank: string -> nat, r1: nat, r2: nat)
    requires Acyclic(table, rank)
    requires (a1.ParamList? ==> ParamsBelow(a1.params, table, rank, r1))
             && (a2.ParamList? ==> ParamsBelow(a2.params, table, rank, r2))
    ensures ParamsBelow(Listed(a1), table, rank, r1) && ParamsBelow(Listed(a2), table, rank, r2)
    ensures (CanonParams(Listed(a1), table, rank, r1) == CanonParams(Listed(a2), table, rank, r2)
             && AllComparable(CanonParams(Listed(a1), table, rank, r1)))
       <==> |Listed(a1)| == |Listed(a2)| && SameAll(a1, a2, table, rank, r1, r2)
    decreases r1, a1
  {
    if a1.ParamList? && a2.ParamList? && |a1.params| == |a2.params| {
      var c1, c2 := CanonParams(a1.params, table, rank, r1), CanonParams(a2.params, table, rank, r2);
      forall i | 0 <= i < |a1.params|
        ensures c1[i] == c2[i] && ComparableParam(c1[i])
           <==> SameParam(a1.params[i], a2.params[i], table, rank, r1, r2)
      {
        ParamAgrees(a1.params[i], a2.params[i], table, rank, r1, r2);
      }
      PairwiseEqual(c1, c2);
    }
  }

  lemma PairwiseEqual(c1: seq<CParam>, c2: seq<CParam>)
    requires |c1| == |c2|
    ensures c1 == c2 && AllComparable(c1) <==> forall i | 0 <= i < |c1| :: c1[i] == c2[i] && ComparableParam(c1[i])
  {
  }

  lemma {:induction false} ParamAgrees(p1: Param, p2: Param, table: Table, rank: string -> nat, r1: nat, r2: nat)
    requires Acyclic(table, rank) && ParamBelow(p1, table, rank, r1) && ParamBelow(p2, table, rank, r2)
    ensures (CanonParam(p1, table, rank, r1) == CanonParam(p2, table, rank, r2)
             && ComparableParam(CanonParam(p1, table, rank, r1)))
       <==> SameParam(p1, p2, table, rank, r1, r2)
    decreases r1, p1
  {
    if p1.Typed? && p2.Typed? {
      AgreeIsSame(p1.of, p2.of, false, table, rank, r1, r2);
    }
  }

  /** Functions that differ only in an `int` and a `float` parameter are not even similar. */
  lemma IntAndFloatDiffer(table: Table, rank: string -> nat, r: nat, similar: bool)
    requires Acyclic(table, rank) && "int" !in table && "float" !in table && "void" !in table
    ensures var taking := (word: string) =>
              Ptr(0, Func(ParamList([Typed(None, Named(Ident([word]), 0))]), Named(Ident(["void"]), 0)));
            && Below(taking("int"), table, rank, r) && Below(taking("float"), table, rank, r)
            && !Agree(taking("int"), taking("float"), similar, table, rank, r, r)
  {
    var p1, p2 := Typed(None, Named(Ident(["int"]), 0)), Typed(None, Named(Ident(["float"]), 0));
    var f1, f2 := Func(ParamList([p1]), Named(Ident(["void"]), 0)), Func(ParamList([p2]), Named(Ident(["void"]), 0));
    assert "int" in multiset(["int"]) && "int" !in multiset(["float"]);
    assert !SameNames(p1.of.leaf, p2.of.leaf, false);
    assert ParamsBelow([p1], table, rank, r) && ParamsBelow([p2], table, rank, r);
    assert Below(f1, table, rank, r) && Below(f2, table, rank, r);
    assert !SameParam(p1, p2, table, rank, r, r);
    assert f1.args.params[0] == p1 && f2.args.params[0] == p2;
    assert !SameAll(f1.args, f2.args, table, rank, r, r);
    assert !Same(f1, f2, similar, table, rank, r, r);
    AgreeIsSame(Ptr(0, f1), Ptr(0, f2), similar, table, rank, r, r);
  }

  lemma {:induction false} BelowGrows(t: Type, table: Table, rank: string -> nat, r: nat, u: nat)
    requires Below(t, table, rank, r) && r <= u
    ensures Below(t, table, rank, u)
    decreases t
  {
    match t
    case Ptr(_, of) =>
      BelowGrows(of, table, rank, r, u);
    case Array(_, of) =>
      BelowGrows(of, table, rank, r, u);
    case Func(args, of) =>
      BelowGrows(of, table, rank, r, u);
      if args.ParamList? {
        ParamsBelowGrow(args.params, table, rank, r, u);
      }
    case Named(_, _) =>
  }

  lemma {:induction false} ParamsBelowGrow(ps: seq<Param>, table: Table, rank: string -> nat, r: nat, u: nat)
    requires ParamsBelow(ps, table, rank, r) && r <= u
    ensures ParamsBelow(ps, table, rank, u)
    decreases ps
  {
    forall i | 0 <= i < |ps| ensures ParamBelow(ps[i], table, rank, u) {
      ParamBelowGrows(ps[i], table, rank, r, u);
    }
  }

  lemma {:induction false} ParamBelowGrows(p: Param, table: Table, rank: string -> nat, r: nat, u: nat)
    requires ParamBelow(p, table, rank, r) && r <= u
    ensures ParamBelow(p, table, rank, u)
    decreases p
  {
    if p.Typed? {
      BelowGrows(p.of, table, rank, r, u);
    }
  }

  /** The canonical form does not depend on how the typedefs are ranked. */
  lemma {:induction false} CanonUnique(t: Type, similar: bool, table: Table, rank: string -> nat, r: nat,
                                       rank': string -> nat, r': nat)
    requires Acyclic(table, rank) && Below(t, table, rank, r) && Acyclic(table, rank') && Below(t, table, rank', r')
    ensures Canon(t, similar, table, rank, r) == Canon(t, similar, table, rank', r')
    decreases r, t
  {
    match t
    case Ptr(_, of) =>
      CanonUnique(of, similar, table, rank, r, rank', r');
    case Array(_, of) =>
      CanonUnique(of, similar, table, rank, r, rank', r');
    case Func(args, of) =>
      CanonUnique(of, false, table, rank, r, rank', r');
      if args.ParamList? {
        CanonParamsUnique(args.params, table, rank, r, rank', r');
      }
    case Named(leaf, _) =>
      if IsTypedefName(t, table) {
        var n := leaf.names[0];
        CanonUnique(table[n], similar, table, rank, rank(n), rank', rank'(n));
      }
  }

  lemma {:induction false} CanonParamsUnique(ps: seq<Param>, table: Table, rank: string -> nat, r: nat,
                                             rank': string -> nat, r': nat)
    requires Acyclic(table, rank) && ParamsBelow(ps, table, rank, r)
    requires Acyclic(table, rank') && ParamsBelow(ps, table, rank', r')
    ensures CanonParams(ps, table, rank, r) == CanonParams(ps, table, rank', r')
    decreases r, ps
  {
    forall i | 0 <= i < |ps|
      ensures CanonParam(ps[i], table, rank, r) == CanonParam(ps[i], table, rank', r')
    {
      CanonParamUnique(ps[i], table, rank, r, rank', r');
    }
  }

  lemma {:induction false} CanonParamUnique(p: Param, table: Table, rank: string -> nat, r: nat,
                                            rank': string -> nat, r': nat)
    requires Acyclic(table, rank) && ParamBelow(p, table, rank, r)
    requires Acyclic(table, rank') && ParamBelow(p, table, rank', r')
    ensures CanonParam(p, table, rank, r) == CanonParam(p, table, rank', r')
    decreases r, p
  {
    if p.Typed? {
      CanonUnique(p.of, false, table, rank, r, rank', r');
    }
  }

  /** `t` with the typedef name at some depth replaced by its definition: 0 leads to what
      is pointed to, contained or returned, k + 1 to parameter k. */
  function ExpandAt(t: Type, path: seq<nat>, table: Table): Type
    decreases |path|, 0
  {
    if path == [] then if IsTypedefName(t, table) then table[t.leaf.names[0]] else t
    else
      match t
      case Ptr(quals, of) => Ptr(quals, ExpandAt(of, path[1..], table))
      case Array(dim, of) => Array(dim, ExpandAt(of, path[1..], table))
      case Func(args, of) =>
        if path[0] == 0 then Func(args, ExpandAt(of, path[1..], table))
        else if args.ParamList? && path[0] <= |args.params| then
          var k := path[0] - 1;
          Func(ParamList(args.params[k := ExpandParam(args.params[k], path[1..], table)]), of)
        else t
      case Named(_, _) => t
  }

  function ExpandParam(p: Param, path: seq<nat>, table: Table): Param
    decreases |path|, 1
  {
    if p.Typed? then p.(of := ExpandAt(p.of, path, table)) else p
  }

  /** Resolving a typedef anywhere in a type, also inside parameters, leaves the canonical
      form alone. */
  lemma {:induction false} ExpandKeepsCanon(t: Type, path: seq<nat>, similar: bool, table: Table,
                                            rank: string -> nat, r: nat)
    requires Acyclic(table, rank) && Below(t, table, rank, r)
    ensures Below(ExpandAt(t, path, table), table, rank, r)
    ensures Canon(ExpandAt(t, path, table), similar, table, rank, r) == Canon(t, similar, table, rank, r)
    decreases |path|, 0
  {
    if path == [] {
      if IsTypedefName(t, table) {
        var n := t.leaf.names[0];
        BelowGrows(table[n], table, rank, rank(n), r);
        CanonUnique(table[n], similar, table, rank, r, rank, rank(n));
      }
    } else {
      match t
      case Ptr(_, of) =>
        ExpandKeepsCanon(of, path[1..], similar, table, rank, r);
      case Array(_, of) =>
        ExpandKeepsCanon(of, path[1..], similar, table, rank, r);
      case Func(args, of) =>
        if path[0] == 0 {
          ExpandKeepsCanon(of, path[1..], false, table, rank, r);
        } else if args.ParamList? && path[0] <= |args.params| {
          ExpandKeepsParams(args.params, path[0] - 1, path[1..], table, rank, r);
        }
      case Named(_, _) =>
    }
  }

  lemma {:induction false} ExpandKeepsParams(ps: seq<Param>, k: nat, path: seq<nat>, table: Table,
                                             rank: string -> nat, r: nat)
    requires Acyclic(table, rank) && ParamsBelow(ps, table, rank, r) && k < |ps|
    ensures var qs := ps[k := ExpandParam(ps[k], path, table)];
            && ParamsBelow(qs, table, rank, r)
            && CanonParams(qs, table, rank, r) == CanonParams(ps, table, rank, r)
    decreases |path|, 1
  {
    var qs := ps[k := ExpandParam(ps[k], path, table)];
    assert ParamBelow(ps[k], table, rank, r);
    if ps[k].Typed? {
      ExpandKeepsCanon(ps[k].of, path, false, table, rank, r);
    }
    forall i | 0 <= i < |qs| ensures ParamBelow(qs[i], table, rank, r) {
      assert ParamBelow(ps[i], table, rank, r);
    }
    assert CanonParam(qs[k], table, rank, r) == CanonParam(ps[k], table, rank, r);
  }

  /** The answer is the same whichever typedefs have been resolved in either type. */
  lemma AgreeUpToTypedefs(t1: Type, t2: Type, p1: seq<nat>, p2: seq<nat>, similar: bool, table: Table,
                          rank: string -> nat, r1: nat, r2: nat)
    requires Acyclic(table, rank) && Below(t1, table, rank, r1) && Below(t2, table, rank, r2)
    ensures Below(ExpandAt(t1, p1, table), table, rank, r1) && Below(ExpandAt(t2, p2, table), table, rank, r2)
    ensures Agree(ExpandAt(t1, p1, table), ExpandAt(t2, p2, table), similar, table, rank, r1, r2)
         == Agree(t1, t2, similar, table, rank, r1, r2)
  {
    ExpandKeepsCanon(t1, p1, similar, table, rank, r1);
    ExpandKeepsCanon(t2, p2, similar, table, rank, r2);
  }

  /** No `typeof` and no parameter that declares only a tag. */
  predicate Plain(t: Type)
    decreases t
  {
    match t
    case Ptr(_, of) => Plain(of)
    case Array(_, of) => Plain(of)
    case Func(args, of) => Plain(of) && (args.ParamList? ==> PlainParams(args.params))
    case Named(leaf, _) => !leaf.Typeof?
  }

  predicate PlainParams(ps: seq<Param>)
    decreases ps
  {
    forall i | 0 <= i < |ps| :: PlainParam(ps[i])
  }

  predicate PlainParam(p: Param)
    decreases p
  {
    !p.TagOnly? && (p.Typed? ==> Plain(p.of))
  }

  lemma {:induction false} PlainIsComparable(t: Type, similar: bool, table: Table, rank: string -> nat, r: nat)
    requires Acyclic(table, rank) && Below(t, table, rank, r)
    requires Plain(t) && forall n | n in table :: Plain(table[n])
    ensures Comparable(Canon(t, similar, table, rank, r))
    decreases r, t
  {
    match t
    case Ptr(_, of) =>
      PlainIsComparable(of, similar, table, rank, r);
    case Array(_, of) =>
      PlainIsComparable(of, similar, table, rank, r);
    case Func(args, of) =>
      PlainIsComparable(of, false, table, rank, r);
      if args.ParamList? {
        PlainParamsComparable(args.params, table, rank, r);
      }
    case Named(leaf, _) =>
      if IsTypedefName(t, table) {
        PlainIsComparable(table[leaf.names[0]], similar, table, rank, rank(leaf.names[0]));
      }
  }

  lemma {:induction false} PlainParamsComparable(ps: seq<Param>, table: Table, rank: string -> nat, r: nat)
    requires Acyclic(table, rank) && ParamsBelow(ps, table, rank, r)
    requires PlainParams(ps) && forall n | n in table :: Plain(table[n])
    ensures AllComparable(CanonParams(ps, table, rank, r))
    decreases r, ps
  {
    forall i | 0 <= i < |ps| ensures ComparableParam(CanonParam(ps[i], table, rank, r)) {
      PlainParamComparable(ps[i], table, rank, r);
    }
  }

  lemma {:induction false} PlainParamComparable(p: Param, table: Table, rank: string -> nat, r: nat)
    requires Acyclic(table, rank) && ParamBelow(p, table, rank, r)
    requires PlainParam(p) && forall n | n in table :: Plain(table[n])
    ensures ComparableParam(CanonParam(p, table, rank, r))
    decreases r, p
  {
    if p.Typed? {
      PlainIsComparable(p.of, false, table, rank, r);
    }
  }

  /** Without `typeof` the comparison is reflexive, symmetric and transitive. */
  lemma AgreeIsEquivalence(t1: Type, t2: Type, t3: Type, similar: bool, table: Table, rank: string -> nat, r: nat)
    requires Acyclic(table, rank)
    requires Below(t1, table, rank, r) && Below(t2, table, rank, r) && Below(t3, table, rank, r)
    requires Plain(t1) && forall n | n in table :: Plain(table[n])
    ensures Agree(t1, t1, similar, table, rank, r, r)
    ensures Agree(t1, t2, similar, table, rank, r, r) == Agree(t2, t1, similar, table, rank, r, r)
    ensures Agree(t1, t2, similar, table, rank, r, r) && Agree(t2, t3, similar, table, rank, r, r) ==>
              Agree(t1, t3, similar, table, rank, r, r)
  {
    PlainIsComparable(t1, similar, table, rank, r);
  }

  /** Forgetting which integer-like type a leaf is, but not inside function types. */
  function Blurred(c: Canonical): Canonical {
    match c
    case CPtr(of) => CPtr(Blurred(of))
    case CArray(of) => CArray(Blurred(of))
    case CIdent(_) => CAny
    case CEnum(_) => CAny
    case _ => c
  }

  /** Allowing similar types compares the forms with just that forgotten. */
  lemma {:induction false} SimilarIsBlurred(t: Type, table: Table, rank: string -> nat, r: nat)
    requires Acyclic(table, rank) && Below(t, table, rank, r)
    ensures Canon(t, true, table, rank, r) == Blurred(Canon(t, false, table, rank, r))
    ensures Comparable(Canon(t, true, table, rank, r)) == Comparable(Canon(t, false, table, rank, r))
    decreases r, t
  {
    match t
    case Ptr(_, of) =>
      SimilarIsBlurred(of, table, rank, r);
    case Array(_, of) =>
      SimilarIsBlurred(of, table, rank, r);
    case Func(_, _) =>
    case Named(leaf, _) =>
      if IsTypedefName(t, table) {
        SimilarIsBlurred(table[leaf.names[0]], table, rank, rank(leaf.names[0]));
      }
  }

  lemma SameIsSimilar(t1: Type, t2: Type, table: Table, rank: string -> nat, r: nat)
    requires Acyclic(table, rank) && Below(t1, table, rank, r) && Below(t2, table, rank, r)
    requires Agree(t1, t2, false, table, rank, r, r)
    ensures Agree(t1, t2, true, table, rank, r, r)
  {
    SimilarIsBlurred(t1, table, rank, r);
    SimilarIsBlurred(t2, table, rank, r);
  }
}
