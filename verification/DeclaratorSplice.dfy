/** The in-place form of declarators: linked nodes whose `.type` fields the parser
    overwrites, and the printing loop that walks the collected modifiers. */
module DeclaratorSplice {
  import opened CSyntax
  import opened CPrinter

  /** A PtrDecl, ArrayDecl or FuncDecl node, or the TypeDecl that ends a chain. */
  datatype Kind = Modified(m: Modifier) | TypeDecl(declname: seq<string>)

  class Node {
    const kind: Kind
    var next: Node?

    constructor (kind: Kind)
      ensures this.kind == kind && next == null
    {
      this.kind := kind;
      next := null;
    }
  }

  /** `ns` is a chain of distinct nodes linked by `next`, ending in null. */
  ghost predicate Linked(ns: seq<Node>)
    reads ns
  {
    && ns != []
    && (forall i, j | 0 <= i < j < |ns| :: ns[i] != ns[j])
    && (forall i | 0 <= i < |ns| - 1 :: ns[i].next == ns[i + 1])
    && ns[|ns| - 1].next == null
  }

  /** A modifier list: it has no TypeDecl yet. */
  ghost predicate IsModifiers(ns: seq<Node>)
    reads ns
  {
    Linked(ns) && forall i | 0 <= i < |ns| :: ns[i].kind.Modified?
  }

  /** A declarator: modifiers, then one TypeDecl. */
  ghost predicate IsDeclarator(ns: seq<Node>)
    reads ns
  {
    && Linked(ns)
    && (forall i | 0 <= i < |ns| - 1 :: ns[i].kind.Modified?)
    && ns[|ns| - 1].kind.TypeDecl?
  }

  /** The modifiers a chain denotes, outermost first. */
  ghost function Modifiers(ns: seq<Node>): seq<Modifier> {
    if |ns| == 0 then [] else Denoted(ns[0]) + Modifiers(ns[1..])
  }

  ghost function Denoted(n: Node): seq<Modifier> {
    if n.kind.Modified? then [n.kind.m] else []
  }

  lemma Associate(a: seq<Modifier>, b: seq<Modifier>, c: seq<Modifier>)
    ensures (a + b) + c == a + (b + c)
    ensures [] + a == a
  {
  }

  lemma {:induction false} ModifiersConcat(a: seq<Node>, b: seq<Node>)
    ensures Modifiers(a + b) == Modifiers(a) + Modifiers(b)
  {
    if |a| == 0 {
      assert a + b == b;
      Associate(Modifiers(b), [], []);
    } else {
      assert (a + b)[0] == a[0] && (a + b)[1..] == a[1..] + b;
      ModifiersConcat(a[1..], b);
      Associate(Denoted(a[0]), Modifiers(a[1..]), Modifiers(b));
    }
  }

  /** Where `_type_modify_decl` puts the modifier: before the TypeDecl. */
  ghost function Spliced(ds: seq<Node>, ms: seq<Node>): seq<Node>
    requires ds != []
  {
    ds[..|ds| - 1] + ms + [ds[|ds| - 1]]
  }

  /** The splice denotes the declarator's modifiers followed by the new ones, and
      keeps the name: what the parser's suffix and pointer rules compute. */
  lemma SplicedModifiers(ds: seq<Node>, ms: seq<Node>)
    requires ds != [] && ds[|ds| - 1].kind.TypeDecl?
    ensures Modifiers(Spliced(ds, ms)) == Modifiers(ds) + Modifiers(ms)
  {
    var n := |ds| - 1;
    var init, name := ds[..n], [ds[n]];
    assert ds == init + name;
    NameDenotesNothing(ds[n]);
    ModifiersConcat(init, name);
    ModifiersConcat(init, ms);
    ModifiersConcat(init + ms, name);
    DropEmpty(Modifiers(init), Modifiers(ms), Modifiers(name));
  }

  lemma NameDenotesNothing(n: Node)
    requires n.kind.TypeDecl?
    ensures |Modifiers([n])| == 0
  {
    assert [n][1..] == [];
  }

  lemma DropEmpty(a: seq<Modifier>, b: seq<Modifier>, c: seq<Modifier>)
    requires |c| == 0
    ensures (a + b) + c == (a + c) + b
  {
  }

  /** The last node of a modifier list. */
  method Tail(head: Node, ghost ns: seq<Node>) returns (tail: Node)
    requires Linked(ns) && ns[0] == head
    ensures tail == ns[|ns| - 1]
  {
    tail := head;
    ghost var i := 0;
    while tail.next != null
      invariant 0 <= i < |ns| && tail == ns[i]
      invariant tail.next == if i == |ns| - 1 then null else ns[i + 1]
      decreases |ns| - i
    {
      tail := tail.next;
      i := i + 1;
    }
  }

  /** The two overwritten links make the splice one chain. */
  lemma SplicedIsDeclarator(ds: seq<Node>, ms: seq<Node>)
    requires ds != [] && ms != []
    requires forall i, j | 0 <= i < j < |ds| :: ds[i] != ds[j]
    requires forall i, j | 0 <= i < j < |ms| :: ms[i] != ms[j]
    requires forall i, j | 0 <= i < |ds| && 0 <= j < |ms| :: ds[i] != ms[j]
    requires forall i | 0 <= i < |ds| - 1 :: ds[i].kind.Modified?
    requires forall i | 0 <= i < |ms| :: ms[i].kind.Modified?
    requires ds[|ds| - 1].kind.TypeDecl? && ds[|ds| - 1].next == null
    requires forall i | 0 <= i < |ds| - 2 :: ds[i].next == ds[i + 1]
    requires forall i | 0 <= i < |ms| - 1 :: ms[i].next == ms[i + 1]
    requires |ds| > 1 ==> ds[|ds| - 2].next == ms[0]
    requires ms[|ms| - 1].next == ds[|ds| - 1]
    ensures IsDeclarator(Spliced(ds, ms))
  {
    var n, out := |ds| - 1, Spliced(ds, ms);
    forall i | 0 <= i < |out| - 1 ensures out[i].next == out[i + 1] {
      if i < n - 1 {
        assert out[i] == ds[i] && out[i + 1] == ds[i + 1];
      } else if i >= n {
        assert out[i] == ms[i - n];
      }
    }
  }

  /** Tacks a modifier list onto a declarator by overwriting two `next` fields. */
  method TypeModifyDecl(decl: Node, modifier: Node, ghost ds: seq<Node>, ghost ms: seq<Node>) returns (r: Node)
    requires IsDeclarator(ds) && ds[0] == decl
    requires IsModifiers(ms) && ms[0] == modifier
    requires forall i, j | 0 <= i < |ds| && 0 <= j < |ms| :: ds[i] != ms[j]
    modifies ds, ms
    ensures IsDeclarator(Spliced(ds, ms)) && r == Spliced(ds, ms)[0]
    ensures Modifiers(Spliced(ds, ms)) == Modifiers(ds) + Modifiers(ms)
  {
    SplicedModifiers(ds, ms);
    ghost var n := |ds| - 1;
    var modifierTail := Tail(modifier, ms);
    if decl.kind.TypeDecl? {
      assert n == 0;
      modifierTail.next := decl;
      r := modifier;
    } else {
      var declTail := decl;
      ghost var i := 0;
      assert n > 0 && decl.next == ds[1];
      while !declTail.next.kind.TypeDecl?
        invariant 0 <= i < n && declTail == ds[i] && declTail.next == ds[i + 1]
        decreases n - i
      {
        declTail := declTail.next;
        i := i + 1;
      }
      assert i == n - 1;
      modifierTail.next := declTail.next;
      declTail.next := modifier;
      r := decl;
    }
    SplicedIsDeclarator(ds, ms);
  }

  /** `TIMES type_qualifier_list_opt pointer`: the new star, read before the
      others, becomes the most nested one. */
  method PointerRule(quals: seq<string>, inner: Node?, ghost ps: seq<Node>) returns (r: Node, ghost out: seq<Node>)
    requires inner == null ==> ps == []
    requires inner != null ==> IsModifiers(ps) && ps[0] == inner
    modifies ps
    ensures IsModifiers(out) && out[0] == r
    ensures Modifiers(out) == Modifiers(ps) + [Ptr(quals)]
    ensures fresh(out[|out| - 1]) && out[..|out| - 1] == ps
  {
    var nested := new Node(Modified(Ptr(quals)));
    out := ps + [nested];
    ModifiersConcat(ps, [nested]);
    if inner == null {
      r := nested;
    } else {
      var tail := Tail(inner, ps);
      tail.next := nested;
      r := inner;
    }
  }

  /** The loop of `_generate_type` that builds the declarator string. */
  method GenerateDeclarator(name: seq<string>, mods: seq<Modifier>, reduce: bool) returns (nstr: seq<Token>)
    requires |name| <= 1
    ensures nstr == VisitChain(name, mods, reduce)
  {
    nstr := if name == [] then [] else [TId(name[0])];
    for i := 0 to |mods|
      invariant nstr == VisitChain(name, mods[..i], reduce)
    {
      ChainStep(name, mods, i, reduce);
      match mods[i]
      case Ptr(qs) =>
        nstr := [TBin(Times)] + (Quals(qs) + nstr);
      case _ =>
        if i != 0 && mods[i - 1].Ptr? {
          nstr := Parens(nstr);
        }
        nstr := nstr + VisitSuffix(mods[i], reduce);
    }
    assert mods[..|mods|] == mods;
  }

  /** One more modifier around the string so far. */
  lemma ChainStep(name: seq<string>, mods: seq<Modifier>, i: nat, reduce: bool)
    requires i < |mods|
    ensures VisitChain(name, mods[..i + 1], reduce)
         == (var inner := VisitChain(name, mods[..i], reduce);
             match mods[i]
             case Ptr(qs) => [TBin(Times)] + (Quals(qs) + inner)
             case _ => (if i != 0 && mods[i - 1].Ptr? then Parens(inner) else inner) + VisitSuffix(mods[i], reduce))
  {
    var grown := mods[..i + 1];
    assert grown[..|grown| - 1] == mods[..i] && grown[|grown| - 1] == mods[i];
  }
}
