/** Function-like macros in the preprocessor: a scan of the body records where the
    arguments go while it deletes operators around them, and an expansion splices
    the arguments in from right to left. */
module MacroPatch {
  import opened Prelude

  datatype Token = Id(name: string) | Hash | Paste | Comma | Other(text: string)

  function Text(t: Token): string {
    match t
    case Id(name) => name
    case Hash => "#"
    case Paste => "##"
    case Comma => ","
    case Other(text) => text
  }

  datatype Kind = Raw | Full

  /** `('c' or 'e', argnum, position)`. */
  datatype Patch = Patch(kind: Kind, arg: nat, at: nat)

  datatype StrPatch = StrPatch(arg: nat, at: nat)

  /** The position of a name in the parameter list. */
  function IndexOf(params: seq<string>, name: string): (i: nat)
    requires name in params
    ensures i < |params| && params[i] == name
  {
    if params[0] == name then 0 else 1 + IndexOf(params[1..], name)
  }

  // ----- what a position of the body stands for -----

  datatype Signature = Signature(params: seq<string>, variadic: bool)

  predicate IsParam(sig: Signature, t: Token) {
    t.Id? && t.name in sig.params
  }

  /** A token of the body after the operators are gone: kept as it is, a comma to drop
      when the variable arguments are empty, or a place for an argument: turned into
      a string, pasted in as written, or expanded first. */
  datatype Mark = Keep(token: Token) | Swallow | Quoted(token: Token, arg: nat) | Pasted(token: Token, arg: nat)
                | Expanded(token: Token, arg: nat)

  /** A parameter after `#` is quoted; next to `##` it is pasted; otherwise expanded.
      An operator in front of a parameter disappears. */
  function MarkAt(sig: Signature, body: seq<Token>, j: nat): (m: seq<Mark>)
    requires j < |body|
    ensures |m| <= 1
  {
    var t := body[j];
    if IsParam(sig, t) then
      var n := IndexOf(sig.params, t.name);
      if j > 0 && body[j - 1] == Hash then [Quoted(Other(t.name), n)]
      else if (j > 0 && body[j - 1] == Paste) || (j + 1 < |body| && body[j + 1] == Paste) then [Pasted(t, n)]
      else [Expanded(t, n)]
    else if (t == Hash || t == Paste) && j + 1 < |body| && IsParam(sig, body[j + 1]) then []
    else if t == Comma && IsVariadicPaste(sig, body, j + 1) then [Swallow]
    else [Keep(t)]
  }

  /** `##` in front of the variable arguments. */
  predicate IsVariadicPaste(sig: Signature, body: seq<Token>, j: nat) {
    && sig.variadic && sig.params != [] && j + 1 < |body| && body[j] == Paste
    && body[j + 1] == Id(sig.params[|sig.params| - 1])
  }

  function Rows(sig: Signature, body: seq<Token>): (rows: seq<seq<Mark>>)
    ensures |rows| == |body|
    ensures forall j | 0 <= j < |body| :: rows[j] == MarkAt(sig, body, j) && |rows[j]| <= 1
  {
    seq(|body|, j requires 0 <= j < |body| => MarkAt(sig, body, j))
  }

  /** The marks of the first `j` positions. */
  function Joined(rows: seq<seq<Mark>>, j: nat): seq<Mark>
    requires j <= |rows|
  {
    if j == 0 then [] else Joined(rows, j - 1) + rows[j - 1]
  }

  function Marks(sig: Signature, body: seq<Token>): seq<Mark> {
    Joined(Rows(sig, body), |body|)
  }

  function TokenOf(m: Mark): Token {
    if m.Swallow? then Comma else m.token
  }

  function Tokens(marks: seq<Mark>): (s: seq<Token>)
    ensures |s| == |marks|
  {
    if |marks| == 0 then [] else Tokens(marks[..|marks| - 1]) + [TokenOf(marks[|marks| - 1])]
  }

  lemma {:induction false} TokensAt(marks: seq<Mark>, k: nat)
    requires k < |marks|
    ensures Tokens(marks)[k] == TokenOf(marks[k])
  {
    if k < |marks| - 1 {
      TokensAt(marks[..|marks| - 1], k);
    }
  }

  // ----- the recorded positions -----

  function StrPatchOf(m: Mark, at: nat): seq<StrPatch> {
    if m.Quoted? then [StrPatch(m.arg, at)] else []
  }

  function CommaPatchOf(m: Mark, at: nat): seq<nat> {
    if m.Swallow? then [at] else []
  }

  function PatchOf(m: Mark, at: nat): seq<Patch> {
    if m.Pasted? then [Patch(Raw, m.arg, at)] else if m.Expanded? then [Patch(Full, m.arg, at)] else []
  }

  function Extended<T(==)>(s: seq<T>, more: seq<T>): seq<T> {
    if |more| == 0 then s else s + more
  }

  /** What the first `k` marks record. */
  function StrPatches(marks: seq<Mark>, k: nat): seq<StrPatch>
    requires k <= |marks|
  {
    if k == 0 then [] else Extended(StrPatches(marks, k - 1), StrPatchOf(marks[k - 1], k - 1))
  }

  function CommaPatches(marks: seq<Mark>, k: nat): seq<nat>
    requires k <= |marks|
  {
    if k == 0 then [] else Extended(CommaPatches(marks, k - 1), CommaPatchOf(marks[k - 1], k - 1))
  }

  function Patches(marks: seq<Mark>, k: nat): seq<Patch>
    requires k <= |marks|
  {
    if k == 0 then [] else Extended(Patches(marks, k - 1), PatchOf(marks[k - 1], k - 1))
  }

  lemma OneMoreToken(marks: seq<Mark>, m: Mark)
    ensures Tokens(marks + [m]) == Tokens(marks) + [TokenOf(m)]
  {
    assert (marks + [m])[..|marks|] == marks;
  }

  predicate Increasing(ps: seq<Patch>) {
    forall i, j | 0 <= i < j < |ps| :: ps[i].at < ps[j].at
  }

  lemma {:induction false} PatchesIncrease(marks: seq<Mark>, k: nat)
    requires k <= |marks|
    ensures Increasing(Patches(marks, k))
    ensures forall i | 0 <= i < |Patches(marks, k)| :: Patches(marks, k)[i].at < k
  {
    if k > 0 {
      PatchesIncrease(marks, k - 1);
    }
  }

  /** Every recorded position is that of the mark it was recorded for. */
  lemma {:induction false} PatchPointsAtMark(marks: seq<Mark>, k: nat, i: nat)
    requires k <= |marks| && i < |Patches(marks, k)|
    ensures var p := Patches(marks, k)[i];
            p.at < k && PatchOf(marks[p.at], p.at) == [p]
  {
    if k > 0 && i < |Patches(marks, k - 1)| {
      PatchPointsAtMark(marks, k - 1, i);
    }
  }

  /** Every place for an argument is recorded. */
  lemma {:induction false} MarkIsRecorded(marks: seq<Mark>, k: nat, i: nat)
    requires i < k <= |marks| && (marks[i].Pasted? || marks[i].Expanded?)
    ensures PatchOf(marks[i], i)[0] in Patches(marks, k)
  {
    if i < k - 1 {
      MarkIsRecorded(marks, k - 1, i);
    }
  }

  // ----- sorting the patches -----

  function Insert(p: Patch, sorted: seq<Patch>): seq<Patch> {
    if sorted == [] || sorted[0].at <= p.at then [p] + sorted
    else [sorted[0]] + Insert(p, sorted[1..])
  }

  /** Stable, largest position first. */
  function SortDescending(ps: seq<Patch>): seq<Patch> {
    if ps == [] then [] else Insert(ps[0], SortDescending(ps[1..]))
  }

  function Reversed(ps: seq<Patch>): (r: seq<Patch>)
    ensures |r| == |ps|
    ensures forall i | 0 <= i < |ps| :: r[i] == ps[|ps| - 1 - i]
  {
    seq(|ps|, i requires 0 <= i < |ps| => ps[|ps| - 1 - i])
  }

  lemma {:induction false} InsertLast(p: Patch, sorted: seq<Patch>)
    requires forall q | q in sorted :: q.at > p.at
    ensures Insert(p, sorted) == sorted + [p]
  {
    if sorted != [] {
      assert sorted[0] in sorted;
      forall q | q in sorted[1..] ensures q.at > p.at {
        assert q in sorted;
      }
      InsertLast(p, sorted[1..]);
      assert sorted == [sorted[0]] + sorted[1..];
    }
  }

  lemma ReversedCons(ps: seq<Patch>)
    requires ps != [] && Increasing(ps)
    ensures Reversed(ps) == Reversed(ps[1..]) + [ps[0]]
    ensures forall q | q in Reversed(ps[1..]) :: q.at > ps[0].at
  {
    var rest := Reversed(ps[1..]);
    forall q | q in rest ensures q.at > ps[0].at {
      var i :| 0 <= i < |rest| && rest[i] == q;
      assert q == ps[1..][|rest| - 1 - i];
    }
  }

  lemma {:induction false} SortingReverses(ps: seq<Patch>)
    requires Increasing(ps)
    ensures SortDescending(ps) == Reversed(ps)
  {
    if ps != [] {
      ReversedCons(ps);
      assert Increasing(ps[1..]);
      SortingReverses(ps[1..]);
      InsertLast(ps[0], Reversed(ps[1..]));
    }
  }

  // ----- substitution -----

  function Written(ts: seq<Token>): string {
    if ts == [] then "" else Text(ts[0]) + Written(ts[1..])
  }

  function Doubled(s: string): string {
    if s == "" then "" else (if s[0] == '\\' then "\\\\" else [s[0]]) + Doubled(s[1..])
  }

  function Stringified(arg: seq<Token>): Token {
    Other(Doubled("\"" + Written(arg) + "\""))
  }

  /** Macro expansion of an argument. */
  type Expander = seq<Token> -> seq<Token>

  predicate ArgsFit(marks: seq<Mark>, n: nat) {
    forall k | 0 <= k < |marks| :: HasArg(marks[k]) ==> marks[k].arg < n
  }

  predicate HasArg(m: Mark) {
    m.Quoted? || m.Pasted? || m.Expanded?
  }

  /** Is argument `n` expanded at a mark from `k` on? */
  predicate ExpandedFrom(marks: seq<Mark>, k: nat, n: nat)
    requires k <= |marks|
    decreases |marks| - k
  {
    k < |marks| && ((marks[k].Expanded? && marks[k].arg == n) || ExpandedFrom(marks, k + 1, n))
  }

  /** What replaces a mark. `late` says that its argument is also expanded further to
      the right. */
  function Piece(m: Mark, args: seq<seq<Token>>, expand: Expander, swallow: bool, late: bool): seq<Token>
    requires HasArg(m) ==> m.arg < |args|
  {
    match m
    case Keep(token) => [token]
    case Swallow => if swallow then [] else [Comma]
    case Quoted(_, n) => [Stringified(args[n])]
    case Pasted(_, n) => if late then expand(args[n]) else args[n]
    case Expanded(_, n) => expand(args[n])
  }

  predicate Late(marks: seq<Mark>, k: nat)
    requires k < |marks|
  {
    marks[k].Pasted? && ExpandedFrom(marks, k + 1, marks[k].arg)
  }

  /** What the splices produce from mark `k` on. Splicing goes from right to left and
      expanding an argument rewrites it, so a pasted argument is the rewritten one
      whenever the same parameter is expanded further right. */
  function Replaced(marks: seq<Mark>, args: seq<seq<Token>>, expand: Expander, swallow: bool, k: nat): seq<Token>
    requires ArgsFit(marks, |args|) && k <= |marks|
    decreases |marks| - k
  {
    if k == |marks| then []
    else Piece(marks[k], args, expand, swallow, Late(marks, k)) + Replaced(marks, args, expand, swallow, k + 1)
  }

  /** What the language asks for: every place replaced at once, operands of `##` by
      the argument as it was written. */
  function Substituted(marks: seq<Mark>, args: seq<seq<Token>>, expand: Expander, swallow: bool, k: nat): seq<Token>
    requires ArgsFit(marks, |args|) && k <= |marks|
    decreases |marks| - k
  {
    if k == |marks| then []
    else Piece(marks[k], args, expand, swallow, false) + Substituted(marks, args, expand, swallow, k + 1)
  }

  /** No parameter is pasted to the left of a place where it is expanded. */
  predicate PastesComeLast(marks: seq<Mark>, k: nat)
    requires k <= |marks|
    decreases |marks| - k
  {
    k < |marks| ==> !Late(marks, k) && PastesComeLast(marks, k + 1)
  }

  lemma {:induction false} SplicingIsSubstitution(marks: seq<Mark>, args: seq<seq<Token>>, expand: Expander,
                                                  swallow: bool, k: nat)
    requires ArgsFit(marks, |args|) && k <= |marks| && PastesComeLast(marks, k)
    ensures Replaced(marks, args, expand, swallow, k) == Substituted(marks, args, expand, swallow, k)
    decreases |marks| - k
  {
    if k < |marks| {
      SplicingIsSubstitution(marks, args, expand, swallow, k + 1);
    }
  }

  /** Arguments that tell the two apart: each the name of a macro with an empty body. */
  function EmptyNames(n: nat): (args: seq<seq<Token>>)
    ensures |args| == n && forall i | 0 <= i < n :: args[i] == [Id("EMPTY")]
  {
    seq(n, _ => [Id("EMPTY")])
  }

  /** Expansion when `EMPTY` is the only other macro, for what is expanded here. */
  const EXPAND_EMPTY: Expander := arg => if arg == [Id("EMPTY")] then [] else arg

  lemma {:induction false} RewritingShows(marks: seq<Mark>, n: nat, k: nat)
    requires ArgsFit(marks, n) && k <= |marks|
    ensures var code := Replaced(marks, EmptyNames(n), EXPAND_EMPTY, false, k);
            var meant := Substituted(marks, EmptyNames(n), EXPAND_EMPTY, false, k);
            |code| <= |meant| && (!PastesComeLast(marks, k) ==> |code| < |meant|)
    decreases |marks| - k
  {
    if k < |marks| {
      RewritingShows(marks, n, k + 1);
    }
  }

  /** Splicing right to left is simultaneous substitution for all arguments exactly when
      no parameter is pasted to the left of a place where it is expanded. */
  lemma SplicingIsSubstitutionIff(marks: seq<Mark>, n: nat)
    requires ArgsFit(marks, n)
    ensures PastesComeLast(marks, 0)
       <==> forall args: seq<seq<Token>>, expand: Expander, swallow: bool | |args| == n ::
              Replaced(marks, args, expand, swallow, 0) == Substituted(marks, args, expand, swallow, 0)
  {
    if PastesComeLast(marks, 0) {
      forall args: seq<seq<Token>>, expand: Expander, swallow: bool | |args| == n
        ensures Replaced(marks, args, expand, swallow, 0) == Substituted(marks, args, expand, swallow, 0)
      {
        SplicingIsSubstitution(marks, args, expand, swallow, 0);
      }
    } else {
      RewritingShows(marks, n, 0);
      assert Replaced(marks, EmptyNames(n), EXPAND_EMPTY, false, 0)
          != Substituted(marks, EmptyNames(n), EXPAND_EMPTY, false, 0);
    }
  }

  /** `#define M(x) x ## _a x` with `EMPTY` as its argument: the second `x` is done first,
      and the first one is then replaced by nothing instead of by the argument. */
  lemma PasteBeforeUse()
    ensures var marks := Marks(Signature(["x"], false), [Id("x"), Paste, Id("_a"), Id("x")]);
            && ArgsFit(marks, 1) && !PastesComeLast(marks, 0)
            && Replaced(marks, [[Id("EMPTY")]], EXPAND_EMPTY, false, 0) == [Paste, Id("_a")]
            && Substituted(marks, [[Id("EMPTY")]], EXPAND_EMPTY, false, 0) == [Id("EMPTY"), Paste, Id("_a")]
  {
    var sig, body := Signature(["x"], false), [Id("x"), Paste, Id("_a"), Id("x")];
    var rows := Rows(sig, body);
    assert rows[0] == MarkAt(sig, body, 0) == [Pasted(Id("x"), 0)];
    assert rows[1] == MarkAt(sig, body, 1) == [Keep(Paste)];
    assert rows[2] == MarkAt(sig, body, 2) == [Keep(Id("_a"))];
    assert rows[3] == MarkAt(sig, body, 3) == [Expanded(Id("x"), 0)];
    var marks := [Pasted(Id("x"), 0), Keep(Paste), Keep(Id("_a")), Expanded(Id("x"), 0)];
    assert Joined(rows, 1) == marks[..1];
    assert Joined(rows, 2) == marks[..1] + [marks[1]] == marks[..2];
    assert Joined(rows, 3) == marks[..2] + [marks[2]] == marks[..3];
    assert Joined(rows, 4) == marks[..3] + [marks[3]] == marks;
    EmptyArgument(marks);
  }

  lemma EmptyArgument(marks: seq<Mark>)
    requires marks == [Pasted(Id("x"), 0), Keep(Paste), Keep(Id("_a")), Expanded(Id("x"), 0)]
    ensures ArgsFit(marks, 1) && !PastesComeLast(marks, 0)
    ensures Replaced(marks, [[Id("EMPTY")]], EXPAND_EMPTY, false, 0) == [Paste, Id("_a")]
    ensures Substituted(marks, [[Id("EMPTY")]], EXPAND_EMPTY, false, 0) == [Id("EMPTY"), Paste, Id("_a")]
  {
    var args := [[Id("EMPTY")]];
    assert ExpandedFrom(marks, 3, 0) && ExpandedFrom(marks, 2, 0) && ExpandedFrom(marks, 1, 0);
    assert Late(marks, 0);
    assert Replaced(marks, args, EXPAND_EMPTY, false, 3) == [];
    assert Replaced(marks, args, EXPAND_EMPTY, false, 2) == [Id("_a")];
    assert Replaced(marks, args, EXPAND_EMPTY, false, 1) == [Paste, Id("_a")];
    assert Substituted(marks, args, EXPAND_EMPTY, false, 3) == [];
    assert Substituted(marks, args, EXPAND_EMPTY, false, 2) == [Id("_a")];
    assert Substituted(marks, args, EXPAND_EMPTY, false, 1) == [Paste, Id("_a")];
  }

  // ----- the same, said of the body alone -----

  /** What section 6.10.3 of ISO/IEC 9899:1999 puts in place of position `j` of a body: after
      `#` the spelling of the argument, next to `##` the argument as it is, elsewhere the
      expanded argument. The operator in front of a parameter goes, and so does a comma in
      front of `##` and empty variable arguments. */
  function Meant(sig: Signature, body: seq<Token>, args: seq<seq<Token>>, expand: Expander, j: nat): seq<Token>
    requires j < |body| && |args| == |sig.params| && (sig.variadic ==> |args| > 0)
  {
    var before := if j > 0 then body[j - 1] else Other("");
    var after := if j + 1 < |body| then body[j + 1] else Other("");
    if body[j].Id? && body[j].name in sig.params then
      var arg := args[IndexOf(sig.params, body[j].name)];
      if before == Hash then [Stringified(arg)]
      else if before == Paste || after == Paste then arg
      else expand(arg)
    else if (body[j] == Hash || body[j] == Paste) && after.Id? && after.name in sig.params then []
    else if && sig.variadic && args[|args| - 1] == [] && body[j] == Comma && after == Paste
            && j + 2 < |body| && body[j + 2] == Id(sig.params[|sig.params| - 1]) then []
    else [body[j]]
  }

  /** The first `k` positions. */
  function AllMeant(sig: Signature, body: seq<Token>, args: seq<seq<Token>>, expand: Expander, k: nat): seq<Token>
    requires k <= |body| && |args| == |sig.params| && (sig.variadic ==> |args| > 0)
  {
    if k == 0 then [] else AllMeant(sig, body, args, expand, k - 1) + Meant(sig, body, args, expand, k - 1)
  }

  /** The replacement of the marks before `k`. */
  function SubstitutedTo(marks: seq<Mark>, args: seq<seq<Token>>, expand: Expander, swallow: bool, k: nat): seq<Token>
    requires ArgsFit(marks, |args|) && k <= |marks|
  {
    if k == 0 then []
    else SubstitutedTo(marks, args, expand, swallow, k - 1) + Piece(marks[k - 1], args, expand, swallow, false)
  }

  lemma {:induction false} SubstitutedBothWays(marks: seq<Mark>, args: seq<seq<Token>>, expand: Expander,
                                               swallow: bool, k: nat)
    requires ArgsFit(marks, |args|) && k <= |marks|
    ensures (SubstitutedTo(marks, args, expand, swallow, k) + Substituted(marks, args, expand, swallow, k)
             == Substituted(marks, args, expand, swallow, 0))
  {
    if k > 0 {
      SubstitutedBothWays(marks, args, expand, swallow, k - 1);
      AssociateTokens(SubstitutedTo(marks, args, expand, swallow, k - 1),
                      Piece(marks[k - 1], args, expand, swallow, false),
                      Substituted(marks, args, expand, swallow, k));
    }
  }

  lemma AssociateTokens(a: seq<Token>, b: seq<Token>, c: seq<Token>)
    ensures a + b + c == a + (b + c)
  {
  }

  lemma {:induction false} SubstitutedToPrefix(a: seq<Mark>, b: seq<Mark>, args: seq<seq<Token>>, expand: Expander,
                                               swallow: bool, k: nat)
    requires ArgsFit(a, |args|) && ArgsFit(b, |args|) && k <= |a| && a <= b
    ensures SubstitutedTo(a, args, expand, swallow, k) == SubstitutedTo(b, args, expand, swallow, k)
  {
    if k > 0 {
      assert a[k - 1] == b[k - 1];
      SubstitutedToPrefix(a, b, args, expand, swallow, k - 1);
    }
  }

  /** What replaces the mark of one position, if it has one. */
  function RowPiece(row: seq<Mark>, args: seq<seq<Token>>, expand: Expander, swallow: bool): seq<Token>
    requires |row| <= 1 && ArgsFit(row, |args|)
  {
    if |row| == 0 then [] else Piece(row[0], args, expand, swallow, false)
  }

  /** One position of the body. */
  lemma MarkMeans(sig: Signature, body: seq<Token>, args: seq<seq<Token>>, expand: Expander, j: nat)
    requires j < |body| && |args| == |sig.params| && (sig.variadic ==> |args| > 0)
    ensures ArgsFit(MarkAt(sig, body, j), |args|)
    ensures Meant(sig, body, args, expand, j)
         == RowPiece(MarkAt(sig, body, j), args, expand, sig.variadic && args[|args| - 1] == [])
  {
  }

  lemma SubstitutedOne(marks: seq<Mark>, m: Mark, more: seq<Mark>, args: seq<seq<Token>>, expand: Expander,
                       swallow: bool)
    requires ArgsFit(marks, |args|) && ArgsFit(more, |args|)
    requires |more| == |marks| + 1 && marks <= more && more[|marks|] == m
    ensures SubstitutedTo(more, args, expand, swallow, |more|)
         == SubstitutedTo(marks, args, expand, swallow, |marks|) + Piece(m, args, expand, swallow, false)
  {
    SubstitutedToPrefix(marks, more, args, expand, swallow, |marks|);
  }

  lemma SubstitutedRow(marks: seq<Mark>, row: seq<Mark>, more: seq<Mark>, args: seq<seq<Token>>, expand: Expander,
                       swallow: bool)
    requires |row| <= 1 && ArgsFit(marks, |args|) && ArgsFit(row, |args|) && ArgsFit(more, |args|)
    requires more == marks + row
    ensures SubstitutedTo(more, args, expand, swallow, |more|)
         == SubstitutedTo(marks, args, expand, swallow, |marks|) + RowPiece(row, args, expand, swallow)
  {
    if |row| == 0 {
      NothingAdded(marks, row);
    } else {
      SubstitutedOne(marks, row[0], more, args, expand, swallow);
    }
  }

  /** A position that is replaced as section 6.10.3 asks. */
  predicate RowMeans(sig: Signature, body: seq<Token>, args: seq<seq<Token>>, expand: Expander, swallow: bool,
                     row: seq<Mark>, j: nat)
    requires j < |body| && |args| == |sig.params| && (sig.variadic ==> |args| > 0)
  {
    |row| <= 1 && ArgsFit(row, |args|)
    && Meant(sig, body, args, expand, j) == RowPiece(row, args, expand, swallow)
  }

  lemma {:induction false} JoinedMeans(sig: Signature, body: seq<Token>, args: seq<seq<Token>>, expand: Expander,
                                       swallow: bool, rows: seq<seq<Mark>>, k: nat)
    requires k <= |rows| == |body| && |args| == |sig.params| && (sig.variadic ==> |args| > 0)
    requires forall j | 0 <= j < |body| :: RowMeans(sig, body, args, expand, swallow, rows[j], j)
    ensures ArgsFit(Joined(rows, k), |args|)
    ensures SubstitutedTo(Joined(rows, k), args, expand, swallow, |Joined(rows, k)|)
         == AllMeant(sig, body, args, expand, k)
  {
    if k > 0 {
      JoinedMeans(sig, body, args, expand, swallow, rows, k - 1);
      assert RowMeans(sig, body, args, expand, swallow, rows[k - 1], k - 1);
      FitConcat(Joined(rows, k - 1), rows[k - 1], |args|);
      SubstitutedRow(Joined(rows, k - 1), rows[k - 1], Joined(rows, k), args, expand, swallow);
    }
  }

  lemma RowsMean(sig: Signature, body: seq<Token>, args: seq<seq<Token>>, expand: Expander, j: nat)
    requires j < |body| && |args| == |sig.params| && (sig.variadic ==> |args| > 0)
    ensures RowMeans(sig, body, args, expand, sig.variadic && args[|args| - 1] == [], Rows(sig, body)[j], j)
  {
    MarkMeans(sig, body, args, expand, j);
  }

  /** Replacing every mark at once is what the standard asks for position by position. */
  lemma SubstitutionIsMeant(sig: Signature, body: seq<Token>, args: seq<seq<Token>>, expand: Expander)
    requires |args| == |sig.params| && (sig.variadic ==> |args| > 0)
    ensures ArgsFit(Marks(sig, body), |args|)
    ensures Substituted(Marks(sig, body), args, expand, sig.variadic && args[|args| - 1] == [], 0)
         == AllMeant(sig, body, args, expand, |body|)
  {
    var swallow := sig.variadic && args[|args| - 1] == [];
    forall j | 0 <= j < |body|
      ensures RowMeans(sig, body, args, expand, swallow, Rows(sig, body)[j], j)
    {
      RowsMean(sig, body, args, expand, j);
    }
    JoinedMeans(sig, body, args, expand, swallow, Rows(sig, body), |body|);
    WholeSubstitution(Marks(sig, body), args, expand, swallow);
  }

  lemma WholeSubstitution(marks: seq<Mark>, args: seq<seq<Token>>, expand: Expander, swallow: bool)
    requires ArgsFit(marks, |args|)
    ensures SubstitutedTo(marks, args, expand, swallow, |marks|) == Substituted(marks, args, expand, swallow, 0)
  {
    SubstitutedBothWays(marks, args, expand, swallow, |marks|);
  }

  // ----- spelling -----

  lemma {:induction false} WrittenConcat(a: seq<Token>, b: seq<Token>)
    ensures Written(a + b) == Written(a) + Written(b)
    decreases |a|
  {
    if a == [] {
      assert a + b == b;
    } else {
      assert (a + b)[0] == a[0] && (a + b)[1..] == a[1..] + b;
      WrittenConcat(a[1..], b);
    }
  }

  lemma WrittenOne(name: string)
    ensures Written([Id(name)]) == name && Written([Other(name)]) == name
    ensures Written([Hash]) == "#" && Written([Paste]) == "##" && Written([Comma]) == "," && Written([]) == ""
  {
    assert forall t: Token :: [t][1..] == [];
  }

  /** Reading a string: a backslash stands for the character after it. */
  function Unescaped(s: string): string {
    if |s| == 0 then ""
    else if s[0] == '\\' && |s| > 1 then [s[1]] + Unescaped(s[2..])
    else [s[0]] + Unescaped(s[1..])
  }

  lemma {:induction false} UnescapedDoubled(s: string)
    ensures Unescaped(Doubled(s)) == s
  {
    if s != "" {
      UnescapedDoubled(s[1..]);
      var d := Doubled(s);
      assert s == [s[0]] + s[1..];
      if s[0] == '\\' {
        assert d[0] == '\\' && d[1] == '\\' && d[2..] == Doubled(s[1..]);
      } else {
        assert d[0] == s[0] && d[1..] == Doubled(s[1..]);
      }
    }
  }

  /** Backslashes apart, the string of an argument reads as its spelling in quotes. */
  lemma StringReadsAsWritten(arg: seq<Token>)
    ensures Stringified(arg).Other? && Unescaped(Stringified(arg).text) == "\"" + Written(arg) + "\""
  {
    UnescapedDoubled("\"" + Written(arg) + "\"");
  }

  // ----- splicing from right to left -----

  function Holes(ts: seq<Token>): (r: seq<Option<Token>>)
    ensures |r| == |ts| && forall k | 0 <= k < |r| :: r[k] == Some(ts[k])
  {
    seq(|ts|, k requires 0 <= k < |ts| => Some(ts[k]))
  }

  /** A mark's token before any splice; a removed comma leaves a hole. */
  function Cell(m: Mark, args: seq<seq<Token>>, swallow: bool): Option<Token>
    requires HasArg(m) ==> m.arg < |args|
  {
    if m.Quoted? then Some(Stringified(args[m.arg]))
    else if m.Swallow? && swallow then None
    else Some(TokenOf(m))
  }

  function Cells(marks: seq<Mark>, args: seq<seq<Token>>, swallow: bool): (r: seq<Option<Token>>)
    requires ArgsFit(marks, |args|)
    ensures |r| == |marks| && forall k | 0 <= k < |r| :: r[k] == Cell(marks[k], args, swallow)
  {
    seq(|marks|, k requires 0 <= k < |marks| => Cell(marks[k], args, swallow))
  }

  /** The finished part of the replacement: that of the marks from `k` on. */
  function Spliced(marks: seq<Mark>, args: seq<seq<Token>>, expand: Expander, swallow: bool, k: nat)
    : seq<Option<Token>>
    requires ArgsFit(marks, |args|) && k <= |marks|
    decreases |marks| - k
  {
    if k == |marks| then []
    else CellsOfMark(marks, args, expand, swallow, k) + Spliced(marks, args, expand, swallow, k + 1)
  }

  function CellsOfMark(marks: seq<Mark>, args: seq<seq<Token>>, expand: Expander, swallow: bool, k: nat)
    : seq<Option<Token>>
    requires ArgsFit(marks, |args|) && k < |marks|
  {
    if marks[k].Pasted? || marks[k].Expanded? then Holes(Piece(marks[k], args, expand, swallow, Late(marks, k)))
    else [Cell(marks[k], args, swallow)]
  }

  function Filtered(cells: seq<Option<Token>>): seq<Option<Token>> {
    if cells == [] then []
    else (if cells[0].None? then [] else [cells[0]]) + Filtered(cells[1..])
  }

  lemma {:induction false} FilteredConcat(a: seq<Option<Token>>, b: seq<Option<Token>>)
    ensures Filtered(a + b) == Filtered(a) + Filtered(b)
    decreases |a|
  {
    if a == [] {
      assert a + b == b;
    } else {
      assert (a + b)[0] == a[0] && (a + b)[1..] == a[1..] + b;
      FilteredConcat(a[1..], b);
    }
  }

  lemma {:induction false} FilteredFull(a: seq<Option<Token>>)
    requires None !in a
    ensures Filtered(a) == a
    decreases |a|
  {
    if a != [] {
      assert a[0] in a && forall x | x in a[1..] :: x in a;
      FilteredFull(a[1..]);
      assert a == [a[0]] + a[1..];
    }
  }

  lemma HolesConcat(a: seq<Token>, b: seq<Token>)
    ensures Holes(a + b) == Holes(a) + Holes(b)
  {
  }

  lemma {:induction false} SplicedIsReplaced(marks: seq<Mark>, args: seq<seq<Token>>, expand: Expander, swallow: bool,
                                             k: nat)
    requires ArgsFit(marks, |args|) && k <= |marks|
    ensures Filtered(Spliced(marks, args, expand, swallow, k)) == Holes(Replaced(marks, args, expand, swallow, k))
    decreases |marks| - k
  {
    if k < |marks| {
      SplicedIsReplaced(marks, args, expand, swallow, k + 1);
      FilteredMark(marks, args, expand, swallow, k);
      FilteredBoth(CellsOfMark(marks, args, expand, swallow, k), Spliced(marks, args, expand, swallow, k + 1),
                   Piece(marks[k], args, expand, swallow, Late(marks, k)),
                   Replaced(marks, args, expand, swallow, k + 1));
    }
  }

  lemma FilteredBoth(a: seq<Option<Token>>, b: seq<Option<Token>>, x: seq<Token>, y: seq<Token>)
    requires Filtered(a) == Holes(x) && Filtered(b) == Holes(y)
    ensures Filtered(a + b) == Holes(x + y)
  {
    FilteredConcat(a, b);
    HolesConcat(x, y);
  }

  lemma FilteredMark(marks: seq<Mark>, args: seq<seq<Token>>, expand: Expander, swallow: bool, k: nat)
    requires ArgsFit(marks, |args|) && k < |marks|
    ensures Filtered(CellsOfMark(marks, args, expand, swallow, k))
         == Holes(Piece(marks[k], args, expand, swallow, Late(marks, k)))
  {
    var cells := CellsOfMark(marks, args, expand, swallow, k);
    if marks[k].Pasted? || marks[k].Expanded? {
      FilteredFull(cells);
    } else {
      assert cells[1..] == [];
    }
  }

  lemma {:induction false} HolesAreCommas(marks: seq<Mark>, args: seq<seq<Token>>, expand: Expander, swallow: bool,
                                          k: nat)
    requires ArgsFit(marks, |args|) && k <= |marks|
    requires !swallow || forall j | k <= j < |marks| :: !marks[j].Swallow?
    ensures None !in Spliced(marks, args, expand, swallow, k)
    decreases |marks| - k
  {
    if k < |marks| {
      HolesAreCommas(marks, args, expand, swallow, k + 1);
      assert None !in CellsOfMark(marks, args, expand, swallow, k);
    }
  }

  /** Where no patch lies the cells are final already. */
  lemma {:induction false} NoPatchBetween(marks: seq<Mark>, args: seq<seq<Token>>, expand: Expander, swallow: bool,
                                          from: nat, until: nat)
    requires ArgsFit(marks, |args|) && from <= until <= |marks|
    requires forall j | from <= j < until :: !marks[j].Pasted? && !marks[j].Expanded?
    ensures Spliced(marks, args, expand, swallow, from)
         == Cells(marks, args, swallow)[from..until] + Spliced(marks, args, expand, swallow, until)
    decreases until - from
  {
    var cells := Cells(marks, args, swallow);
    if from < until {
      NoPatchBetween(marks, args, expand, swallow, from + 1, until);
      assert CellsOfMark(marks, args, expand, swallow, from) == [cells[from]];
      TakeOne(cells, from, until, Spliced(marks, args, expand, swallow, until));
    } else {
      assert cells[from..until] == [];
    }
  }

  lemma TakeOne(cells: seq<Option<Token>>, from: nat, until: nat, rest: seq<Option<Token>>)
    requires from < until <= |cells|
    ensures [cells[from]] + (cells[from + 1..until] + rest) == cells[from..until] + rest
  {
  }

  lemma {:induction false} NoneExpandedBetween(marks: seq<Mark>, from: nat, until: nat, n: nat)
    requires from <= until <= |marks|
    requires forall j | from <= j < until :: !marks[j].Expanded?
    ensures ExpandedFrom(marks, from, n) == ExpandedFrom(marks, until, n)
    decreases until - from
  {
    if from < until {
      NoneExpandedBetween(marks, from + 1, until, n);
    }
  }

  /** Below a recorded position the remaining patches are those before it. */
  lemma {:induction false} PatchesBefore(marks: seq<Mark>, k: nat, i: nat)
    requires k <= |marks| && i < |Patches(marks, k)|
    ensures var p := Patches(marks, k)[i];
            && p.at < k && Patches(marks, p.at) == Patches(marks, k)[..i]
            && (i == |Patches(marks, k)| - 1 ==>
                 forall j | p.at < j < k :: !marks[j].Pasted? && !marks[j].Expanded?)
  {
    if k > 0 && i < |Patches(marks, k - 1)| {
      PatchesBefore(marks, k - 1, i);
    }
  }

  /** One splice: with everything from `k` on finished and `at` the last place below,
      replacing that cell finishes everything from `at` on. */
  lemma SpliceStep(marks: seq<Mark>, args: seq<seq<Token>>, expand: Expander, swallow: bool, k: nat, at: nat,
                   rep: seq<Option<Token>>, piece: seq<Token>)
    requires ArgsFit(marks, |args|) && at < k <= |marks|
    requires marks[at].Pasted? || marks[at].Expanded?
    requires forall j | at < j < k :: !marks[j].Pasted? && !marks[j].Expanded?
    requires rep == Cells(marks, args, swallow)[..k] + Spliced(marks, args, expand, swallow, k)
    requires piece == Piece(marks[at], args, expand, swallow, Late(marks, at))
    ensures at < |rep|
    ensures rep[..at] + Holes(piece) + rep[at + 1..]
         == Cells(marks, args, swallow)[..at] + Spliced(marks, args, expand, swallow, at)
  {
    NoPatchBetween(marks, args, expand, swallow, at + 1, k);
    CutAt(Cells(marks, args, swallow), Spliced(marks, args, expand, swallow, k), rep, at, k, Holes(piece));
  }

  lemma CutAt(cells: seq<Option<Token>>, rest: seq<Option<Token>>, rep: seq<Option<Token>>, at: nat, k: nat,
              middle: seq<Option<Token>>)
    requires at < k <= |cells| && rep == cells[..k] + rest
    ensures rep[..at] + middle + rep[at + 1..] == cells[..at] + (middle + (cells[at + 1..k] + rest))
  {
    assert rep[..at] == cells[..at];
    assert rep[at + 1..] == cells[at + 1..k] + rest;
    Associate(cells[..at], middle, cells[at + 1..k] + rest);
  }

  lemma Associate(a: seq<Option<Token>>, b: seq<Option<Token>>, c: seq<Option<Token>>)
    ensures (a + b) + c == a + (b + c)
  {
  }

  /** The argument lists and the memo, as they are once everything from `k` on is done:
      an argument that was expanded is rewritten. */
  ghost predicate ArgsAt(marks: seq<Mark>, k: nat, was: seq<seq<Token>>, now: seq<seq<Token>>, expand: Expander,
                         memo: map<nat, seq<Token>>)
    requires k <= |marks|
  {
    && |now| == |was|
    && (forall n | 0 <= n < |was| :: now[n] == if ExpandedFrom(marks, k, n) then expand(was[n]) else was[n])
    && (forall n: nat | n < |was| :: n in memo <==> ExpandedFrom(marks, k, n))
    && (forall n | n in memo :: n < |was| && memo[n] == expand(was[n]))
  }

  lemma ArgsStep(marks: seq<Mark>, k: nat, at: nat, was: seq<seq<Token>>, now: seq<seq<Token>>, expand: Expander,
                 memo: map<nat, seq<Token>>)
    requires ArgsFit(marks, |was|) && at < k <= |marks| && ArgsAt(marks, k, was, now, expand, memo)
    requires forall j | at < j < k :: !marks[j].Pasted? && !marks[j].Expanded?
    ensures marks[at].Pasted? ==>
              && ArgsAt(marks, at, was, now, expand, memo)
              && forall swallow :: now[marks[at].arg] == Piece(marks[at], was, expand, swallow, Late(marks, at))
    ensures marks[at].Expanded? && marks[at].arg in memo ==>
              && ArgsAt(marks, at, was, now, expand, memo)
              && memo[marks[at].arg] == expand(was[marks[at].arg])
    ensures marks[at].Expanded? && marks[at].arg !in memo ==>
              var n := marks[at].arg;
              && now[n] == was[n]
              && ArgsAt(marks, at, was, now[n := expand(now[n])], expand, memo[n := expand(now[n])])
  {
    forall n: nat | n < |was|
      ensures ExpandedFrom(marks, at + 1, n) == ExpandedFrom(marks, k, n)
      ensures ExpandedFrom(marks, at, n) == (ExpandedFrom(marks, k, n) || (marks[at].Expanded? && marks[at].arg == n))
    {
      NoneExpandedBetween(marks, at + 1, k, n);
    }
  }

  /** The replacement so far, the argument lists and the memo of expanded ones. */
  datatype Splicing = Splicing(rep: seq<Option<Token>>, args: seq<seq<Token>>, memo: map<nat, seq<Token>>)

  /** Everything from mark `k` on is done. */
  ghost function SplicedTo(marks: seq<Mark>, was: seq<seq<Token>>, expand: Expander, swallow: bool, k: nat,
                           s: Splicing): Stage
    requires ArgsFit(marks, |was|)
  {
    if && k <= |marks| && ArgsAt(marks, k, was, s.args, expand, s.memo)
       && s.rep == Cells(marks, was, swallow)[..k] + Spliced(marks, was, expand, swallow, k)
    then Reached else Lost
  }

  function OneSplice(p: Patch, s: Splicing, expand: Expander): Splicing
    requires p.at < |s.rep| && p.arg < |s.args|
  {
    if p.kind == Raw then s.(rep := s.rep[..p.at] + Holes(s.args[p.arg]) + s.rep[p.at + 1..])
    else if p.arg in s.memo then s.(rep := s.rep[..p.at] + Holes(s.memo[p.arg]) + s.rep[p.at + 1..])
    else
      var ex := expand(s.args[p.arg]);
      Splicing(s.rep[..p.at] + Holes(ex) + s.rep[p.at + 1..], s.args[p.arg := ex], s.memo[p.arg := ex])
  }

  predicate InReach(p: Patch, s: Splicing) {
    p.at < |s.rep| && p.arg < |s.args|
  }

  /** Every patch from number `q` on finds its place. */
  predicate AllInReach(patch: seq<Patch>, q: nat, s: Splicing, expand: Expander)
    requires q <= |patch|
    decreases |patch| - q
  {
    q < |patch| ==> InReach(patch[q], s) && AllInReach(patch, q + 1, OneSplice(patch[q], s, expand), expand)
  }

  function Splices(patch: seq<Patch>, q: nat, s: Splicing, expand: Expander): Splicing
    requires q <= |patch| && AllInReach(patch, q, s, expand)
    decreases |patch| - q
  {
    if q == |patch| then s else Splices(patch, q + 1, OneSplice(patch[q], s, expand), expand)
  }

  /** The last patch below `k`, and what it replaces. */
  lemma LastPatch(marks: seq<Mark>, k: nat)
    requires k <= |marks| && Patches(marks, k) != []
    ensures var p := Patches(marks, k)[|Patches(marks, k)| - 1];
            && p.at < k && Patches(marks, p.at) == Patches(marks, k)[..|Patches(marks, k)| - 1]
            && (forall j | p.at < j < k :: !marks[j].Pasted? && !marks[j].Expanded?)
            && HasArg(marks[p.at]) && p.arg == marks[p.at].arg
            && (if p.kind == Raw then marks[p.at].Pasted? else marks[p.at].Expanded?)
  {
    var last := |Patches(marks, k)| - 1;
    PatchesBefore(marks, k, last);
    PatchPointsAtMark(marks, k, last);
  }

  /** The last patch below `k` finds its place, and splicing it finishes more. */
  lemma OneSpliceKeeps(marks: seq<Mark>, was: seq<seq<Token>>, expand: Expander, swallow: bool, k: nat, s: Splicing,
                       p: Patch)
    requires ArgsFit(marks, |was|) && SplicedTo(marks, was, expand, swallow, k, s) == Reached
    requires k <= |marks| && |Patches(marks, k)| > 0 && p == Patches(marks, k)[|Patches(marks, k)| - 1]
    ensures p.at < |s.rep| && p.arg < |s.args| == |was| && p.at < k
    ensures Patches(marks, p.at) == Patches(marks, k)[..|Patches(marks, k)| - 1]
    ensures SplicedTo(marks, was, expand, swallow, p.at, OneSplice(p, s, expand)) == Reached
  {
    LastPatch(marks, k);
    SpliceAtMark(marks, was, expand, swallow, k, s, p);
  }

  /** A patch and the mark that it was recorded for. */
  predicate IsFor(p: Patch, m: Mark) {
    HasArg(m) && p.arg == m.arg && (if p.kind == Raw then m.Pasted? else m.Expanded?)
  }

  lemma SpliceAtMark(marks: seq<Mark>, was: seq<seq<Token>>, expand: Expander, swallow: bool, k: nat, s: Splicing,
                     p: Patch)
    requires ArgsFit(marks, |was|) && SplicedTo(marks, was, expand, swallow, k, s) == Reached
    requires p.at < k <= |marks| && IsFor(p, marks[p.at])
    requires forall j | p.at < j < k :: !marks[j].Pasted? && !marks[j].Expanded?
    ensures p.at < |s.rep| && p.arg < |s.args| == |was|
    ensures SplicedTo(marks, was, expand, swallow, p.at, OneSplice(p, s, expand)) == Reached
  {
    SpliceStep(marks, was, expand, swallow, k, p.at, s.rep,
               Piece(marks[p.at], was, expand, swallow, Late(marks, p.at)));
    SpliceArgs(marks, was, expand, swallow, k, s, p);
  }

  lemma SpliceArgs(marks: seq<Mark>, was: seq<seq<Token>>, expand: Expander, swallow: bool, k: nat, s: Splicing,
                   p: Patch)
    requires ArgsFit(marks, |was|) && p.at < k <= |marks| && ArgsAt(marks, k, was, s.args, expand, s.memo)
    requires IsFor(p, marks[p.at]) && p.at < |s.rep|
    requires forall j | p.at < j < k :: !marks[j].Pasted? && !marks[j].Expanded?
    ensures p.arg < |s.args| == |was|
    ensures var t := OneSplice(p, s, expand);
            && ArgsAt(marks, p.at, was, t.args, expand, t.memo)
            && t.rep == s.rep[..p.at] + Holes(Piece(marks[p.at], was, expand, swallow, Late(marks, p.at)))
                        + s.rep[p.at + 1..]
  {
    ArgsStep(marks, k, p.at, was, s.args, expand, s.memo);
  }

  /** The patches from number `q` on are those below `k`, backwards. */
  predicate Remaining(marks: seq<Mark>, k: nat, patch: seq<Patch>, q: nat) {
    && k <= |marks| && q <= |patch| && |Patches(marks, k)| == |patch| - q
    && forall i | q <= i < |patch| :: patch[i] == Patches(marks, k)[|patch| - 1 - i]
  }

  lemma RemainingStep(marks: seq<Mark>, k: nat, patch: seq<Patch>, q: nat, at: nat)
    requires Remaining(marks, k, patch, q) && q < |patch| && at <= |marks|
    requires Patches(marks, at) == Patches(marks, k)[..|Patches(marks, k)| - 1]
    ensures Remaining(marks, at, patch, q + 1)
  {
  }

  lemma LastRemaining(marks: seq<Mark>, k: nat, patch: seq<Patch>, q: nat)
    requires Remaining(marks, k, patch, q) && q < |patch|
    ensures |Patches(marks, k)| > 0 && patch[q] == Patches(marks, k)[|Patches(marks, k)| - 1]
  {
  }

  lemma NextSplice(marks: seq<Mark>, was: seq<seq<Token>>, expand: Expander, swallow: bool, k: nat,
                   patch: seq<Patch>, q: nat, s: Splicing)
    requires ArgsFit(marks, |was|) && SplicedTo(marks, was, expand, swallow, k, s) == Reached
    requires Remaining(marks, k, patch, q) && q < |patch|
    ensures InReach(patch[q], s) && Remaining(marks, patch[q].at, patch, q + 1)
    ensures SplicedTo(marks, was, expand, swallow, patch[q].at, OneSplice(patch[q], s, expand)) == Reached
  {
    LastRemaining(marks, k, patch, q);
    OneSpliceKeeps(marks, was, expand, swallow, k, s, patch[q]);
    RemainingStep(marks, k, patch, q, patch[q].at);
  }

  lemma {:induction false} SplicesFinish(marks: seq<Mark>, was: seq<seq<Token>>, expand: Expander, swallow: bool,
                                         k: nat, patch: seq<Patch>, q: nat, s: Splicing)
    requires ArgsFit(marks, |was|) && SplicedTo(marks, was, expand, swallow, k, s) == Reached
    requires Remaining(marks, k, patch, q)
    ensures AllInReach(patch, q, s, expand)
    ensures SplicedTo(marks, was, expand, swallow, 0, Splices(patch, q, s, expand)) == Reached
    decreases |patch| - q
  {
    if q < |patch| {
      NextSplice(marks, was, expand, swallow, k, patch, q, s);
      SplicesFinish(marks, was, expand, swallow, patch[q].at, patch, q + 1, OneSplice(patch[q], s, expand));
    } else {
      AllSpliced(marks, was, expand, swallow, k, s);
    }
  }

  /** What all the splices leave. */
  lemma SplicesResult(marks: seq<Mark>, was: seq<seq<Token>>, expand: Expander, swallow: bool, patch: seq<Patch>)
    requires ArgsFit(marks, |was|) && patch == Reversed(Patches(marks, |marks|))
    ensures var start := Splicing(Cells(marks, was, swallow), was, map[]);
            && AllInReach(patch, 0, start, expand)
            && var s := Splices(patch, 0, start, expand);
               && s.rep == Spliced(marks, was, expand, swallow, 0) && |s.args| == |was|
               && forall n | 0 <= n < |was| :: s.args[n] == if ExpandedFrom(marks, 0, n) then expand(was[n]) else was[n]
  {
    var start := Splicing(Cells(marks, was, swallow), was, map[]);
    NothingSpliced(marks, was, expand, swallow);
    SplicesFinish(marks, was, expand, swallow, |marks|, patch, 0, start);
    var s := Splices(patch, 0, start, expand);
    assert Cells(marks, was, swallow)[..0] + Spliced(marks, was, expand, swallow, 0)
        == Spliced(marks, was, expand, swallow, 0);
  }

  /** Below `k` nothing is left to do. */
  lemma AllSpliced(marks: seq<Mark>, was: seq<seq<Token>>, expand: Expander, swallow: bool, k: nat, s: Splicing)
    requires ArgsFit(marks, |was|) && SplicedTo(marks, was, expand, swallow, k, s) == Reached
    requires k <= |marks| && Patches(marks, k) == []
    ensures SplicedTo(marks, was, expand, swallow, 0, s) == Reached
  {
    NoPatches(marks, k);
    NoPatchBetween(marks, was, expand, swallow, 0, k);
    SameArgs(marks, k, was, s.args, expand, s.memo);
    WholeOfTwo(Cells(marks, was, swallow), k, Spliced(marks, was, expand, swallow, k));
  }

  lemma SameArgs(marks: seq<Mark>, k: nat, was: seq<seq<Token>>, now: seq<seq<Token>>, expand: Expander,
                 memo: map<nat, seq<Token>>)
    requires k <= |marks| && ArgsAt(marks, k, was, now, expand, memo)
    requires forall j | 0 <= j < k :: !marks[j].Pasted? && !marks[j].Expanded?
    ensures ArgsAt(marks, 0, was, now, expand, memo)
  {
    forall n: nat ensures ExpandedFrom(marks, 0, n) == ExpandedFrom(marks, k, n) {
      NoneExpandedBetween(marks, 0, k, n);
    }
  }

  lemma WholeOfTwo(cells: seq<Option<Token>>, k: nat, rest: seq<Option<Token>>)
    requires k <= |cells|
    ensures cells[0..k] == cells[..k] && cells[..0] + (cells[..k] + rest) == cells[..k] + rest
  {
  }

  lemma NothingSpliced(marks: seq<Mark>, was: seq<seq<Token>>, expand: Expander, swallow: bool)
    requires ArgsFit(marks, |was|)
    ensures SplicedTo(marks, was, expand, swallow, |marks|, Splicing(Cells(marks, was, swallow), was, map[])) == Reached
  {
    var cells := Cells(marks, was, swallow);
    assert cells[..|marks|] + [] == cells;
  }

  lemma {:induction false} NoPatches(marks: seq<Mark>, k: nat)
    requires k <= |marks| && Patches(marks, k) == []
    ensures forall j | 0 <= j < k :: !marks[j].Pasted? && !marks[j].Expanded?
  {
    if k > 0 {
      NoPatches(marks, k - 1);
    }
  }

  lemma {:induction false} StrPointsAtMark(marks: seq<Mark>, k: nat, i: nat)
    requires k <= |marks| && i < |StrPatches(marks, k)|
    ensures var p := StrPatches(marks, k)[i];
            p.at < k && marks[p.at].Quoted? && marks[p.at].arg == p.arg
  {
    if k > 0 && i < |StrPatches(marks, k - 1)| {
      StrPointsAtMark(marks, k - 1, i);
    }
  }

  lemma StrTarget(marks: seq<Mark>, args: seq<seq<Token>>, i: nat)
    requires ArgsFit(marks, |args|) && i < |StrPatches(marks, |marks|)|
    ensures var p := StrPatches(marks, |marks|)[i];
            && p.at < |marks| && marks[p.at].Quoted? && marks[p.at].arg == p.arg < |args|
            && Cells(marks, args, false)[p.at] == Some(Stringified(args[p.arg]))
  {
    StrPointsAtMark(marks, |marks|, i);
  }

  lemma {:induction false} StrIsRecorded(marks: seq<Mark>, k: nat, i: nat)
    requires i < k <= |marks| && marks[i].Quoted?
    ensures StrPatch(marks[i].arg, i) in StrPatches(marks, k)
  {
    if i < k - 1 {
      StrIsRecorded(marks, k - 1, i);
    }
  }

  lemma {:induction false} CommaPointsAtMark(marks: seq<Mark>, k: nat, i: nat)
    requires k <= |marks| && i < |CommaPatches(marks, k)|
    ensures var p := CommaPatches(marks, k)[i];
            p < k && marks[p].Swallow?
  {
    if k > 0 && i < |CommaPatches(marks, k - 1)| {
      CommaPointsAtMark(marks, k - 1, i);
    }
  }

  lemma {:induction false} CommaIsRecorded(marks: seq<Mark>, k: nat, i: nat)
    requires i < k <= |marks| && marks[i].Swallow?
    ensures i in CommaPatches(marks, k)
  {
    if i < k - 1 {
      CommaIsRecorded(marks, k - 1, i);
    }
  }

  // ----- the macro object -----

  lemma MarkFits(sig: Signature, body: seq<Token>, j: nat)
    requires j < |body|
    ensures ArgsFit(MarkAt(sig, body, j), |sig.params|)
  {
  }

  lemma {:induction false} JoinedFit(rows: seq<seq<Mark>>, n: nat, j: nat)
    requires j <= |rows| && forall i | 0 <= i < |rows| :: ArgsFit(rows[i], n)
    ensures ArgsFit(Joined(rows, j), n)
  {
    if j > 0 {
      JoinedFit(rows, n, j - 1);
      FitConcat(Joined(rows, j - 1), rows[j - 1], n);
    }
  }

  lemma FitConcat(a: seq<Mark>, b: seq<Mark>, n: nat)
    requires ArgsFit(a, n) && ArgsFit(b, n)
    ensures ArgsFit(a + b, n)
  {
  }

  lemma MarksFit(sig: Signature, body: seq<Token>)
    ensures ArgsFit(Marks(sig, body), |sig.params|)
  {
    forall i | 0 <= i < |body| ensures ArgsFit(Rows(sig, body)[i], |sig.params|) {
      MarkFits(sig, body, i);
    }
    JoinedFit(Rows(sig, body), |sig.params|, |body|);
  }

  // ----- the scan, one token at a time -----

  /** The marks of each position of a body. */
  predicate RowsFit(rows: seq<seq<Mark>>, body: seq<Token>) {
    |rows| == |body| && forall j | 0 <= j < |rows| :: |rows[j]| <= 1
  }

  /** An operator that the token at `j` will delete. */
  function Pending(rows: seq<seq<Mark>>, body: seq<Token>, j: nat): seq<Token>
    requires j <= |rows| == |body|
  {
    if j > 0 && |rows[j - 1]| == 0 then [body[j - 1]] else []
  }

  /** What the fields hold when the scan has come to original position `j`, now at `i`:
      an operator just before is still there, and a comma just before is not yet
      recorded. */
  predicate ValueAt(rows: seq<seq<Mark>>, body: seq<Token>, j: nat, value: seq<Token>, i: int) {
    && RowsFit(rows, body) && j <= |body|
    && i == |Joined(rows, j)| + |Pending(rows, body, j)|
    && value == Tokens(Joined(rows, j)) + Pending(rows, body, j) + body[j..]
  }

  /** Whether an invariant holds, as a value: lemmas then pass it on as one fact. */
  datatype Stage = Reached | Lost

  function ValueStage(rows: seq<seq<Mark>>, body: seq<Token>, j: nat, value: seq<Token>, i: int): Stage {
    if ValueAt(rows, body, j, value, i) then Reached else Lost
  }

  /** What the scan sees around it is what surrounds position `j` of the body. */
  lemma ScanView(rows: seq<seq<Mark>>, body: seq<Token>, j: nat, value: seq<Token>, i: int)
    requires ValueStage(rows, body, j, value, i) == Reached
    ensures 0 <= i <= |value| && |value| - i == |body| - j && value[i..] == body[j..]
    ensures j < |body| ==> value[i] == body[j]
    ensures j + 1 < |body| ==> value[i + 1] == body[j + 1]
    ensures j == 0 <==> i == 0
    ensures j > 0 ==> value[i - 1] == if |rows[j - 1]| == 0 then body[j - 1] else TokenOf(rows[j - 1][0])
  {
    if j > 0 {
      var marks, m := Joined(rows, j), rows[j - 1];
      assert marks == Joined(rows, j - 1) + m;
      if |m| > 0 {
        assert marks[|marks| - 1] == m[0];
      }
    }
  }

  /** A pending operator goes, and `m` stands where it stood. */
  lemma DeletingStep(rows: seq<seq<Mark>>, body: seq<Token>, j: nat, value: seq<Token>, i: int, m: Mark)
    requires ValueStage(rows, body, j, value, i) == Reached && j < |body| && rows[j] == [m]
    requires j > 0 && |rows[j - 1]| == 0
    ensures 0 < i < |value| && i - 1 == |Joined(rows, j)|
    ensures ValueStage(rows, body, j + 1, value[..i - 1] + [TokenOf(m)] + value[i + 1..], i) == Reached
    ensures TokenOf(m) == body[j] ==> value[..i - 1] + value[i..] == value[..i - 1] + [TokenOf(m)] + value[i + 1..]
  {
    DeletingView(rows, body, j, value, i);
    var before := Tokens(Joined(rows, j));
    DropOne(before, body[j - 1], body, j, value, TokenOf(m));
    DeletedStage(rows, body, j, value[..i - 1] + [TokenOf(m)] + value[i + 1..], m);
  }

  lemma DeletingView(rows: seq<seq<Mark>>, body: seq<Token>, j: nat, value: seq<Token>, i: int)
    requires ValueStage(rows, body, j, value, i) == Reached && j < |body| && j > 0 && |rows[j - 1]| == 0
    ensures RowsFit(rows, body) && j <= |rows|
    ensures i == |Joined(rows, j)| + 1 && i < |value| && value == Tokens(Joined(rows, j)) + [body[j - 1]] + body[j..]
  {
  }

  lemma DeletedStage(rows: seq<seq<Mark>>, body: seq<Token>, j: nat, value: seq<Token>, m: Mark)
    requires RowsFit(rows, body) && j < |body| && j < |rows| && rows[j] == [m]
    requires value == (Tokens(Joined(rows, j)) + [TokenOf(m)]) + [] + body[j + 1..]
    ensures ValueStage(rows, body, j + 1, value, |Joined(rows, j)| + 1) == Reached
  {
    OneMoreToken(Joined(rows, j), m);
  }

  lemma DropOne(before: seq<Token>, op: Token, body: seq<Token>, j: nat, value: seq<Token>, t: Token)
    requires j < |body| && value == before + [op] + body[j..]
    ensures value[..|before|] + [t] + value[|before| + 2..] == (before + [t]) + [] + body[j + 1..]
    ensures (t == body[j] ==>
               value[..|before|] + value[|before| + 1..] == value[..|before|] + [t] + value[|before| + 2..])
  {
    assert value[..|before|] == before;
    assert value[|before| + 2..] == body[j + 1..];
    assert value[|before| + 1..] == [body[j]] + body[j + 1..];
  }

  /** A token that stays, perhaps to be deleted by the next. */
  lemma KeepingStep(rows: seq<seq<Mark>>, body: seq<Token>, j: nat, value: seq<Token>, i: int)
    requires ValueStage(rows, body, j, value, i) == Reached && j < |body| && |Pending(rows, body, j)| == 0
    requires |rows[j]| > 0 ==> TokenOf(rows[j][0]) == body[j]
    ensures ValueStage(rows, body, j + 1, value, i + 1) == Reached && i == |Joined(rows, j)|
  {
    var marks, m := Joined(rows, j), rows[j];
    ShiftOne(Tokens(marks), body, j);
    if |m| == 0 {
      NothingAdded(marks, m);
    } else {
      assert m == [m[0]];
      OneMoreToken(marks, m[0]);
    }
  }

  lemma ShiftOne(before: seq<Token>, body: seq<Token>, j: nat)
    requires j < |body|
    ensures before + [] + body[j..] == before + [body[j]] + body[j + 1..]
    ensures before + [] + body[j..] == (before + [body[j]]) + [] + body[j + 1..]
  {
    assert body[j..] == [body[j]] + body[j + 1..];
  }

  lemma NothingAdded(marks: seq<Mark>, m: seq<Mark>)
    requires |m| == 0
    ensures marks + m == marks
  {
  }

  lemma {:induction false} JoinedPrefix(rows: seq<seq<Mark>>, j: nat, n: nat)
    requires j <= n <= |rows|
    ensures |Joined(rows, j)| <= |Joined(rows, n)|
    ensures Joined(rows, n)[..|Joined(rows, j)|] == Joined(rows, j)
  {
    if j < n {
      JoinedPrefix(rows, j, n - 1);
    }
  }

  /** A position's mark keeps its place while the rest is scanned. */
  lemma RowInMarks(rows: seq<seq<Mark>>, body: seq<Token>, j: nat)
    requires RowsFit(rows, body) && j < |rows|
    ensures var marks, at := Joined(rows, |rows|), |Joined(rows, j)|;
            && |Joined(rows, j + 1)| == at + |rows[j]| <= |marks|
            && (|rows[j]| > 0 ==> rows[j][0] == marks[at])
  {
    JoinedPrefix(rows, j + 1, |rows|);
    var next := Joined(rows, j + 1);
    assert next == Joined(rows, j) + rows[j];
    if |rows[j]| > 0 {
      assert next[|Joined(rows, j)|] == rows[j][0];
    }
  }

  /** The tokens around the scan, and those around position `j` of the body. */
  predicate Sees(rows: seq<seq<Mark>>, body: seq<Token>, j: nat, value: seq<Token>, i: int) {
    && j < |body| == |rows| && 0 <= i < |value| && value[i] == body[j] && (i == 0 <==> j == 0)
    && (i + 1 < |value| <==> j + 1 < |body|) && (j + 1 < |body| ==> value[i + 1] == body[j + 1])
    && (j > 0 ==> value[i - 1] == if |rows[j - 1]| == 0 then body[j - 1] else TokenOf(rows[j - 1][0]))
  }

  lemma ScanSees(rows: seq<seq<Mark>>, body: seq<Token>, j: nat, value: seq<Token>, i: int)
    requires ValueStage(rows, body, j, value, i) == Reached && j < |body|
    ensures Sees(rows, body, j, value, i) && RowsFit(rows, body)
  {
    ScanView(rows, body, j, value, i);
  }

  /** The marks at position `j` and just before it. */
  predicate MarkedAt(sig: Signature, body: seq<Token>, rows: seq<seq<Mark>>, j: nat) {
    && j < |body| == |rows| && rows[j] == MarkAt(sig, body, j)
    && (j > 0 ==> rows[j - 1] == MarkAt(sig, body, j - 1))
  }

  /** The mark of a parameter, from what the scan sees next to it. */
  function ParamMark(sig: Signature, t: Token, value: seq<Token>, i: int): Mark
    requires IsParam(sig, t) && 0 <= i < |value|
  {
    var n := IndexOf(sig.params, t.name);
    if i > 0 && value[i - 1] == Hash then Quoted(Other(t.name), n)
    else if (i > 0 && value[i - 1] == Paste) || (i + 1 < |value| && value[i + 1] == Paste) then Pasted(t, n)
    else Expanded(t, n)
  }

  /** In front of a parameter the scan sees an operator exactly when that has no mark. */
  lemma OperatorBefore(sig: Signature, body: seq<Token>, rows: seq<seq<Mark>>, j: nat, value: seq<Token>, i: int)
    requires Sees(rows, body, j, value, i) && MarkedAt(sig, body, rows, j) && IsParam(sig, body[j]) && j > 0
    ensures value[i - 1] == Hash <==> body[j - 1] == Hash
    ensures value[i - 1] == Paste <==> body[j - 1] == Paste
    ensures |rows[j - 1]| == 0 <==> body[j - 1] == Hash || body[j - 1] == Paste
    ensures !IsComma(rows[j - 1])
  {
  }

  /** Which case of `MarkAt` a parameter is in, seen from the scan. */
  lemma ParamView(sig: Signature, body: seq<Token>, rows: seq<seq<Mark>>, j: nat, value: seq<Token>, i: int)
    requires Sees(rows, body, j, value, i) && MarkedAt(sig, body, rows, j) && IsParam(sig, body[j])
    ensures |Pending(rows, body, j)| > 0 <==> i > 0 && (value[i - 1] == Hash || value[i - 1] == Paste)
    ensures rows[j] == [ParamMark(sig, body[j], value, i)] && !IsComma(Before(rows, j))
  {
    if j > 0 {
      OperatorBefore(sig, body, rows, j, value, i);
    }
  }

  lemma OtherView(sig: Signature, body: seq<Token>, rows: seq<seq<Mark>>, j: nat, value: seq<Token>, i: int)
    requires Sees(rows, body, j, value, i) && MarkedAt(sig, body, rows, j) && !IsParam(sig, body[j])
    ensures |Pending(rows, body, j)| == 0
    ensures |rows[j]| > 0 ==> TokenOf(rows[j][0]) == body[j] && (rows[j][0].Keep? || rows[j][0].Swallow?)
    ensures IsComma(Before(rows, j)) <==> SeesVariadicPaste(sig, value, i)
  {
    if j > 0 {
      CommaBefore(sig, body, rows, j, value, i);
    }
  }

  lemma CommaBefore(sig: Signature, body: seq<Token>, rows: seq<seq<Mark>>, j: nat, value: seq<Token>, i: int)
    requires Sees(rows, body, j, value, i) && MarkedAt(sig, body, rows, j) && !IsParam(sig, body[j]) && j > 0
    ensures |rows[j - 1]| == 1
    ensures IsComma(rows[j - 1]) <==> SeesVariadicPaste(sig, value, i)
  {
  }

  /** Where the mark of position `j` stands. */
  function Offset(rows: seq<seq<Mark>>, j: nat): nat
    requires j <= |rows|
  {
    if j == 0 then 0 else Offset(rows, j - 1) + |rows[j - 1]|
  }

  lemma {:induction false} OffsetIsLength(rows: seq<seq<Mark>>, j: nat)
    requires j <= |rows|
    ensures Offset(rows, j) == |Joined(rows, j)|
  {
    if j > 0 {
      OffsetIsLength(rows, j - 1);
    }
  }

  /** Equality of whole values, not to be shown element by element. */
  predicate Same<T(==)>(a: T, b: T) {
    a == b
  }

  /** Arguments are recorded up to `at`, commas up to `before`. */
  predicate RecordedTo(marks: seq<Mark>, at: nat, before: nat, patch: seq<Patch>, strs: seq<StrPatch>,
                       commas: seq<nat>)
  {
    && at <= |marks| && before <= |marks|
    && Same(patch, Patches(marks, at)) && Same(strs, StrPatches(marks, at)) && Same(commas, CommaPatches(marks, before))
  }

  /** The mark of one position, if it has one, standing at `at`. */
  predicate RowAt(marks: seq<Mark>, row: seq<Mark>, at: nat) {
    |row| <= 1 && at + |row| <= |marks| && (|row| > 0 ==> row[0] == marks[at])
  }

  function RowPatches(row: seq<Mark>, at: nat): seq<Patch> {
    if |row| == 0 then [] else PatchOf(row[0], at)
  }

  lemma PatchesGrow(marks: seq<Mark>, row: seq<Mark>, at: nat)
    requires RowAt(marks, row, at)
    ensures Patches(marks, at + |row|) == Extended(Patches(marks, at), RowPatches(row, at))
  {
  }

  function RowStrs(row: seq<Mark>, at: nat): seq<StrPatch> {
    if |row| == 0 then [] else StrPatchOf(row[0], at)
  }

  lemma StrPatchesGrow(marks: seq<Mark>, row: seq<Mark>, at: nat)
    requires RowAt(marks, row, at)
    ensures StrPatches(marks, at + |row|) == Extended(StrPatches(marks, at), RowStrs(row, at))
  {
  }

  function RowCommas(row: seq<Mark>, at: nat): seq<nat> {
    if |row| == 0 then [] else CommaPatchOf(row[0], at)
  }

  lemma CommaPatchesGrow(marks: seq<Mark>, row: seq<Mark>, at: nat)
    requires RowAt(marks, row, at)
    ensures CommaPatches(marks, at + |row|) == Extended(CommaPatches(marks, at), RowCommas(row, at))
  {
  }

  /** One more position, and the comma before it. */
  lemma RecordRow(marks: seq<Mark>, at: nat, before: nat, row: seq<Mark>, prev: seq<Mark>,
                  patch: seq<Patch>, strs: seq<StrPatch>, commas: seq<nat>)
    requires RecordedTo(marks, at, before, patch, strs, commas)
    requires RowAt(marks, row, at) && RowAt(marks, prev, before) && at == before + |prev|
    ensures RecordedTo(marks, at + |row|, at, Extended(patch, RowPatches(row, at)), Extended(strs, RowStrs(row, at)),
                       Extended(commas, RowCommas(prev, before)))
  {
    PatchesGrow(marks, row, at);
    StrPatchesGrow(marks, row, at);
    CommaPatchesGrow(marks, prev, before);
  }

  predicate IsComma(row: seq<Mark>) {
    |row| > 0 && row[0].Swallow?
  }

  /** The mark before position `j`, if there is one. */
  function Before(rows: seq<seq<Mark>>, j: nat): seq<Mark>
    requires j <= |rows|
  {
    if j == 0 then [] else rows[j - 1]
  }

  lemma RowAtOffset(rows: seq<seq<Mark>>, body: seq<Token>, j: nat)
    requires RowsFit(rows, body) && j < |rows|
    ensures RowAt(Joined(rows, |rows|), rows[j], Offset(rows, j)) && Offset(rows, j + 1) == Offset(rows, j) + |rows[j]|
  {
    RowInMarks(rows, body, j);
    OffsetIsLength(rows, j);
  }

  /** Where the mark of position `j` stands, and the one before it. */
  lemma OffsetFacts(rows: seq<seq<Mark>>, body: seq<Token>, j: nat, at: nat)
    requires RowsFit(rows, body) && j < |rows| && at == Offset(rows, j)
    ensures at >= |Before(rows, j)| && Offset(rows, if j == 0 then 0 else j - 1) == at - |Before(rows, j)|
    ensures Offset(rows, j + 1) == at + |rows[j]|
    ensures RowAt(Joined(rows, |rows|), rows[j], at)
    ensures RowAt(Joined(rows, |rows|), Before(rows, j), at - |Before(rows, j)|)
  {
    RowAtOffset(rows, body, j);
    if j > 0 {
      RowAtOffset(rows, body, j - 1);
    }
  }

  /** The step from position `j` to the next. */
  lemma RecordStep(rows: seq<seq<Mark>>, marks: seq<Mark>, body: seq<Token>, j: nat, s: Scan, at: nat)
    requires RowsFit(rows, body) && marks == Joined(rows, |rows|) && j < |body| && at == Offset(rows, j)
    requires RecordedTo(marks, at, Offset(rows, if j == 0 then 0 else j - 1), s.patch, s.strs, s.commas)
    ensures at >= |Before(rows, j)|
    ensures RecordedTo(marks, Offset(rows, j + 1), at,
                       Extended(s.patch, RowPatches(rows[j], at)), Extended(s.strs, RowStrs(rows[j], at)),
                       Extended(s.commas, RowCommas(Before(rows, j), at - |Before(rows, j)|)))
  {
    OffsetFacts(rows, body, j, at);
    RecordRow(marks, at, at - |Before(rows, j)|, rows[j], Before(rows, j), s.patch, s.strs, s.commas);
  }

  /** The fields of a macro during the scan, and where the scan is. */
  datatype Scan = Scan(value: seq<Token>, i: int, patch: seq<Patch>, strs: seq<StrPatch>, commas: seq<nat>)

  /** The invariant of the scan: arguments are recorded up to where it is, commas up to
      one position before. */
  predicate ScanAt(rows: seq<seq<Mark>>, marks: seq<Mark>, body: seq<Token>, j: nat, s: Scan) {
    && ValueStage(rows, body, j, s.value, s.i) == Reached && j <= |rows|
    && RecordedTo(marks, Offset(rows, j), Offset(rows, if j == 0 then 0 else j - 1), s.patch, s.strs, s.commas)
  }

  function StageOf(rows: seq<seq<Mark>>, marks: seq<Mark>, body: seq<Token>, j: nat, s: Scan): Stage {
    if ScanAt(rows, marks, body, j, s) then Reached else Lost
  }

  lemma ScanStart(rows: seq<seq<Mark>>, marks: seq<Mark>, body: seq<Token>)
    requires RowsFit(rows, body)
    ensures StageOf(rows, marks, body, 0, Scan(body, 0, [], [], [])) == Reached
  {
    assert Tokens([]) == [] && [] + [] + body[0..] == body;
  }

  lemma ScanBounds(rows: seq<seq<Mark>>, marks: seq<Mark>, body: seq<Token>, j: nat, s: Scan)
    requires ScanAt(rows, marks, body, j, s)
    ensures 0 <= s.i <= |s.value| && j <= |body| && (s.i < |s.value| <==> j < |body|)
    ensures j < |body| ==> s.value[s.i] == body[j]
  {
    ScanView(rows, body, j, s.value, s.i);
  }

  /** `##` between a comma and the variable arguments, seen from the scan. */
  predicate SeesVariadicPaste(sig: Signature, value: seq<Token>, i: int) {
    && 0 < i < |value| && value[i] == Paste && sig.variadic && value[i - 1] == Comma && i + 1 < |value|
    && sig.params != [] && value[i + 1] == Id(sig.params[|sig.params| - 1])
  }

  /** One turn of the scan. */
  function Turn(sig: Signature, s: Scan): (r: Scan)
    requires 0 <= s.i < |s.value|
    ensures 0 <= r.i <= |r.value| && |r.value| - r.i < |s.value| - s.i
  {
    var t := s.value[s.i];
    if IsParam(sig, t) then ParamTurn(s, t.name, IndexOf(sig.params, t.name))
    else OtherTurn(s, SeesVariadicPaste(sig, s.value, s.i))
  }

  /** All turns that are left. */
  function Turns(sig: Signature, s: Scan): Scan
    requires 0 <= s.i <= |s.value|
    decreases |s.value| - s.i
  {
    if s.i < |s.value| then Turns(sig, Turn(sig, s)) else s
  }

  function ParamTurn(s: Scan, name: string, n: nat): (r: Scan)
    requires 0 <= s.i < |s.value|
    ensures 0 <= r.i <= |r.value| && |r.value| - r.i < |s.value| - s.i
  {
    if s.i > 0 && s.value[s.i - 1] == Hash then
      s.(value := s.value[..s.i - 1] + [Other(name)] + s.value[s.i + 1..], strs := s.strs + [StrPatch(n, s.i - 1)])
    else if s.i > 0 && s.value[s.i - 1] == Paste then
      s.(value := s.value[..s.i - 1] + s.value[s.i..], patch := s.patch + [Patch(Raw, n, s.i - 1)])
    else if s.i + 1 < |s.value| && s.value[s.i + 1] == Paste then
      s.(patch := s.patch + [Patch(Raw, n, s.i)], i := s.i + 1)
    else s.(patch := s.patch + [Patch(Full, n, s.i)], i := s.i + 1)
  }

  /** A place for an argument is recorded; the position before it is no comma. */
  lemma RecordParam(rows: seq<seq<Mark>>, marks: seq<Mark>, body: seq<Token>, j: nat, s: Scan, at: nat, m: Mark)
    requires RowsFit(rows, body) && marks == Joined(rows, |rows|) && j < |body| && at == Offset(rows, j)
    requires RecordedTo(marks, at, Offset(rows, if j == 0 then 0 else j - 1), s.patch, s.strs, s.commas)
    requires rows[j] == [m] && HasArg(m) && !IsComma(Before(rows, j))
    ensures RecordedTo(marks, Offset(rows, j + 1), at,
                       if m.Quoted? then s.patch
                       else s.patch + [Patch(if m.Pasted? then Raw else Full, m.arg, at)],
                       if m.Quoted? then s.strs + [StrPatch(m.arg, at)] else s.strs, s.commas)
  {
    RecordStep(rows, marks, body, j, s, at);
    ParamRow(m, Before(rows, j), at, at - |Before(rows, j)|, s);
  }

  lemma ParamRow(m: Mark, prev: seq<Mark>, at: nat, before: nat, s: Scan)
    requires HasArg(m) && |prev| <= 1 && !IsComma(prev)
    ensures (Extended(s.patch, RowPatches([m], at))
             == if m.Quoted? then s.patch else s.patch + [Patch(if m.Pasted? then Raw else Full, m.arg, at)])
    ensures (Extended(s.strs, RowStrs([m], at))
             == if m.Quoted? then s.strs + [StrPatch(m.arg, at)] else s.strs)
    ensures Extended(s.commas, RowCommas(prev, before)) == s.commas
  {
  }

  /** A parameter that deletes the operator in front of it. */
  predicate Deletes(row: seq<Mark>, op: Token, t: Token, name: string, n: nat) {
    && t == Id(name)
    && ((op == Hash && row == [Quoted(Other(name), n)]) || (op == Paste && row == [Pasted(t, n)]))
  }

  lemma DeletingTurnValue(rows: seq<seq<Mark>>, body: seq<Token>, j: nat, s: Scan, name: string, n: nat)
    requires ValueStage(rows, body, j, s.value, s.i) == Reached && 0 < j < |body| && |rows| == |body|
    requires |rows[j - 1]| == 0 && 0 < s.i < |s.value| && Deletes(rows[j], s.value[s.i - 1], body[j], name, n)
    ensures ValueStage(rows, body, j + 1, ParamTurn(s, name, n).value, ParamTurn(s, name, n).i) == Reached
    ensures s.i - 1 == Offset(rows, j)
  {
    DeletingStep(rows, body, j, s.value, s.i, rows[j][0]);
    OffsetIsLength(rows, j);
  }

  lemma DeletingTurnRecords(rows: seq<seq<Mark>>, marks: seq<Mark>, body: seq<Token>, j: nat, s: Scan, name: string,
                            n: nat)
    requires RowsFit(rows, body) && marks == Joined(rows, |rows|) && 0 < j < |body| && |rows[j - 1]| == 0
    requires 0 < s.i < |s.value| && s.i - 1 == Offset(rows, j)
    requires RecordedTo(marks, s.i - 1, Offset(rows, j - 1), s.patch, s.strs, s.commas)
    requires Deletes(rows[j], s.value[s.i - 1], body[j], name, n)
    ensures var t := ParamTurn(s, name, n);
            RecordedTo(marks, Offset(rows, j + 1), Offset(rows, j), t.patch, t.strs, t.commas)
  {
    RecordParam(rows, marks, body, j, s, s.i - 1, rows[j][0]);
  }

  lemma DeletingTurnKeeps(rows: seq<seq<Mark>>, marks: seq<Mark>, body: seq<Token>, j: nat, s: Scan, name: string,
                          n: nat)
    requires ScanAt(rows, marks, body, j, s) && marks == Joined(rows, |rows|) && 0 < j < |body|
    requires RowsFit(rows, body) && |rows[j - 1]| == 0
    requires 0 < s.i < |s.value| && Deletes(rows[j], s.value[s.i - 1], body[j], name, n)
    ensures ScanAt(rows, marks, body, j + 1, ParamTurn(s, name, n))
  {
    DeletingTurnValue(rows, body, j, s, name, n);
    DeletingTurnRecords(rows, marks, body, j, s, name, n);
  }

  lemma KeepingTurnValue(rows: seq<seq<Mark>>, body: seq<Token>, j: nat, s: Scan, name: string, n: nat)
    requires ValueStage(rows, body, j, s.value, s.i) == Reached && j < |body| && |rows| == |body|
    requires |Pending(rows, body, j)| == 0 && 0 <= s.i < |s.value|
    requires s.i > 0 ==> s.value[s.i - 1] != Hash && s.value[s.i - 1] != Paste
    requires |rows[j]| == 1 && TokenOf(rows[j][0]) == body[j]
    ensures ValueStage(rows, body, j + 1, ParamTurn(s, name, n).value, ParamTurn(s, name, n).i) == Reached
    ensures s.i == Offset(rows, j)
  {
    KeepingStep(rows, body, j, s.value, s.i);
    OffsetIsLength(rows, j);
  }

  /** The mark of a parameter with no operator in front of it. */
  function KeptMark(s: Scan, t: Token, n: nat): Mark
    requires 0 <= s.i < |s.value|
  {
    if s.i + 1 < |s.value| && s.value[s.i + 1] == Paste then Pasted(t, n) else Expanded(t, n)
  }

  lemma KeepingTurnRecords(rows: seq<seq<Mark>>, marks: seq<Mark>, body: seq<Token>, j: nat, s: Scan, name: string,
                           n: nat)
    requires RowsFit(rows, body) && marks == Joined(rows, |rows|) && j < |body| && 0 <= s.i < |s.value|
    requires s.i == Offset(rows, j) && !IsComma(Before(rows, j))
    requires RecordedTo(marks, s.i, Offset(rows, if j == 0 then 0 else j - 1), s.patch, s.strs, s.commas)
    requires s.i > 0 ==> s.value[s.i - 1] != Hash && s.value[s.i - 1] != Paste
    requires rows[j] == [KeptMark(s, body[j], n)]
    ensures var t := ParamTurn(s, name, n);
            RecordedTo(marks, Offset(rows, j + 1), Offset(rows, j), t.patch, t.strs, t.commas)
  {
    RecordParam(rows, marks, body, j, s, s.i, rows[j][0]);
  }

  /** Any other parameter. */
  lemma KeepingTurnKeeps(rows: seq<seq<Mark>>, marks: seq<Mark>, body: seq<Token>, j: nat, s: Scan, name: string,
                         n: nat)
    requires ScanAt(rows, marks, body, j, s) && marks == Joined(rows, |rows|) && j < |body| && 0 <= s.i < |s.value|
    requires RowsFit(rows, body)
    requires |Pending(rows, body, j)| == 0 && !IsComma(Before(rows, j))
    requires s.i > 0 ==> s.value[s.i - 1] != Hash && s.value[s.i - 1] != Paste
    requires rows[j] == [KeptMark(s, body[j], n)]
    ensures ScanAt(rows, marks, body, j + 1, ParamTurn(s, name, n))
  {
    KeepingTurnValue(rows, body, j, s, name, n);
    KeepingTurnRecords(rows, marks, body, j, s, name, n);
  }

  function OtherTurn(s: Scan, late: bool): Scan {
    if late && s.i > 0 then s.(commas := s.commas + [s.i - 1], i := s.i + 1) else s.(i := s.i + 1)
  }

  /** A row that holds no argument records none; the comma before it may be recorded. */
  lemma NoArgumentRow(row: seq<Mark>, prev: seq<Mark>, at: nat, before: nat, s: Scan)
    requires |row| <= 1 && |prev| <= 1 && (|row| > 0 ==> row[0].Keep? || row[0].Swallow?)
    ensures Extended(s.patch, RowPatches(row, at)) == s.patch && Extended(s.strs, RowStrs(row, at)) == s.strs
    ensures (Extended(s.commas, RowCommas(prev, before))
             == if IsComma(prev) then s.commas + [before] else s.commas)
  {
  }

  lemma RecordOther(marks: seq<Mark>, at: nat, before: nat, row: seq<Mark>, prev: seq<Mark>, s: Scan)
    requires RecordedTo(marks, at, before, s.patch, s.strs, s.commas)
    requires RowAt(marks, row, at) && RowAt(marks, prev, before) && at == before + |prev|
    requires |row| > 0 ==> row[0].Keep? || row[0].Swallow?
    ensures RecordedTo(marks, at + |row|, at, s.patch, s.strs,
                       if IsComma(prev) then s.commas + [before] else s.commas)
  {
    RecordRow(marks, at, before, row, prev, s.patch, s.strs, s.commas);
    NoArgumentRow(row, prev, at, before, s);
  }

  lemma OtherTurnRecords(rows: seq<seq<Mark>>, marks: seq<Mark>, body: seq<Token>, j: nat, s: Scan, at: nat)
    requires RowsFit(rows, body) && marks == Joined(rows, |rows|) && j < |body| && at == Offset(rows, j)
    requires RecordedTo(marks, at, Offset(rows, if j == 0 then 0 else j - 1), s.patch, s.strs, s.commas)
    requires |rows[j]| > 0 ==> rows[j][0].Keep? || rows[j][0].Swallow?
    ensures IsComma(Before(rows, j)) ==> at > 0
    ensures RecordedTo(marks, Offset(rows, j + 1), at, s.patch, s.strs,
                       if IsComma(Before(rows, j)) then s.commas + [at - 1] else s.commas)
  {
    OffsetFacts(rows, body, j, at);
    RecordOther(marks, at, at - |Before(rows, j)|, rows[j], Before(rows, j), s);
  }

  lemma OtherTurnValue(rows: seq<seq<Mark>>, body: seq<Token>, j: nat, s: Scan, late: bool)
    requires ValueStage(rows, body, j, s.value, s.i) == Reached && j < |body| && |rows| == |body|
    requires |Pending(rows, body, j)| == 0 && (|rows[j]| > 0 ==> TokenOf(rows[j][0]) == body[j])
    ensures ValueStage(rows, body, j + 1, OtherTurn(s, late).value, OtherTurn(s, late).i) == Reached
    ensures s.i == Offset(rows, j)
  {
    KeepingStep(rows, body, j, s.value, s.i);
    OffsetIsLength(rows, j);
  }

  lemma OtherTurnCommas(rows: seq<seq<Mark>>, marks: seq<Mark>, body: seq<Token>, j: nat, s: Scan, late: bool)
    requires RowsFit(rows, body) && marks == Joined(rows, |rows|) && j < |body| && s.i == Offset(rows, j)
    requires RecordedTo(marks, s.i, Offset(rows, if j == 0 then 0 else j - 1), s.patch, s.strs, s.commas)
    requires |rows[j]| > 0 ==> rows[j][0].Keep? || rows[j][0].Swallow?
    requires late == IsComma(Before(rows, j))
    ensures var t := OtherTurn(s, late);
            RecordedTo(marks, Offset(rows, j + 1), Offset(rows, j), t.patch, t.strs, t.commas)
  {
    OtherTurnRecords(rows, marks, body, j, s, s.i);
  }

  /** Anything but a parameter. */
  lemma OtherTurnKeeps(rows: seq<seq<Mark>>, marks: seq<Mark>, body: seq<Token>, j: nat, s: Scan, late: bool)
    requires ScanAt(rows, marks, body, j, s) && marks == Joined(rows, |rows|) && j < |body| && 0 <= s.i < |s.value|
    requires RowsFit(rows, body)
    requires |Pending(rows, body, j)| == 0
    requires |rows[j]| > 0 ==> TokenOf(rows[j][0]) == body[j] && (rows[j][0].Keep? || rows[j][0].Swallow?)
    requires late == IsComma(Before(rows, j))
    ensures ScanAt(rows, marks, body, j + 1, OtherTurn(s, late))
  {
    OtherTurnValue(rows, body, j, s, late);
    OtherTurnCommas(rows, marks, body, j, s, late);
  }

  lemma ParamTurnKeeps(sig: Signature, body: seq<Token>, rows: seq<seq<Mark>>, marks: seq<Mark>, j: nat, s: Scan)
    requires ScanAt(rows, marks, body, j, s) && marks == Joined(rows, |rows|) && RowsFit(rows, body)
    requires Sees(rows, body, j, s.value, s.i) && MarkedAt(sig, body, rows, j) && IsParam(sig, body[j])
    ensures ScanAt(rows, marks, body, j + 1, ParamTurn(s, body[j].name, IndexOf(sig.params, body[j].name)))
  {
    var name := body[j].name;
    ParamView(sig, body, rows, j, s.value, s.i);
    if |Pending(rows, body, j)| > 0 {
      DeletingTurnKeeps(rows, marks, body, j, s, name, IndexOf(sig.params, name));
    } else {
      KeepingTurnKeeps(rows, marks, body, j, s, name, IndexOf(sig.params, name));
    }
  }

  /** Every turn takes the scan one position further. */
  lemma TurnKeeps(sig: Signature, body: seq<Token>, rows: seq<seq<Mark>>, marks: seq<Mark>, j: nat, s: Scan)
    requires ScanAt(rows, marks, body, j, s) && marks == Joined(rows, |rows|)
    requires 0 <= s.i < |s.value| && MarkedAt(sig, body, rows, j)
    ensures ScanAt(rows, marks, body, j + 1, Turn(sig, s))
  {
    ScanSees(rows, body, j, s.value, s.i);
    if IsParam(sig, body[j]) {
      ParamTurnKeeps(sig, body, rows, marks, j, s);
    } else {
      OtherView(sig, body, rows, j, s.value, s.i);
      OtherTurnKeeps(rows, marks, body, j, s, SeesVariadicPaste(sig, s.value, s.i));
    }
  }

  /** What every turn keeps holds at the end of the scan. */
  lemma {:induction false} TurnsKeep(sig: Signature, n: nat, inv: (nat, Scan) -> bool, j: nat, s: Scan)
    requires forall j: nat, s: Scan :: inv(j, s) ==>
               && j <= n && 0 <= s.i <= |s.value| && (s.i < |s.value| <==> j < n)
               && (j < n ==> inv(j + 1, Turn(sig, s)))
    requires inv(j, s)
    ensures 0 <= s.i <= |s.value| && inv(n, Turns(sig, s))
    decreases n - j
  {
    if j < n {
      TurnsKeep(sig, n, inv, j + 1, Turn(sig, s));
    }
  }

  lemma TurnsReachEnd(sig: Signature, body: seq<Token>)
    ensures StageOf(Rows(sig, body), Marks(sig, body), body, |body|, Turns(sig, Scan(body, 0, [], [], []))) == Reached
  {
    var start := Scan(body, 0, [], [], []);
    var inv := (j: nat, s: Scan) => StageOf(Rows(sig, body), Marks(sig, body), body, j, s) == Reached;
    forall j: nat, s: Scan | inv(j, s)
      ensures j <= |body| && 0 <= s.i <= |s.value| && (s.i < |s.value| <==> j < |body|)
      ensures j < |body| ==> inv(j + 1, Turn(sig, s))
    {
      OneTurn(sig, body, j, s);
    }
    ScanStart(Rows(sig, body), Marks(sig, body), body);
    assert inv(0, start);
    TurnsKeep(sig, |body|, inv, 0, start);
  }

  lemma OneTurn(sig: Signature, body: seq<Token>, j: nat, s: Scan)
    requires StageOf(Rows(sig, body), Marks(sig, body), body, j, s) == Reached
    ensures j <= |body| && 0 <= s.i <= |s.value| && (s.i < |s.value| <==> j < |body|)
    ensures j < |body| ==> StageOf(Rows(sig, body), Marks(sig, body), body, j + 1, Turn(sig, s)) == Reached
  {
    ScanBounds(Rows(sig, body), Marks(sig, body), body, j, s);
    if j < |body| {
      TurnKeeps(sig, body, Rows(sig, body), Marks(sig, body), j, s);
    }
  }

  /** At the end nothing is pending. */
  lemma ScanEnd(rows: seq<seq<Mark>>, marks: seq<Mark>, body: seq<Token>, s: Scan)
    requires RowsFit(rows, body) && marks == Joined(rows, |rows|)
    requires StageOf(rows, marks, body, |body|, s) == Reached
    requires body != [] ==> |Before(rows, |body|)| > 0 && !IsComma(Before(rows, |body|))
    ensures s.value == Tokens(marks) && s.strs == StrPatches(marks, |marks|) && s.patch == Patches(marks, |marks|)
    ensures s.commas == CommaPatches(marks, |marks|)
  {
    OffsetIsLength(rows, |body|);
    if body != [] {
      RowAtOffset(rows, body, |body| - 1);
      NoCommaLeft(marks, rows[|body| - 1], Offset(rows, |body| - 1));
    }
    NothingLeft(Tokens(marks), body);
  }

  lemma NoCommaLeft(marks: seq<Mark>, last: seq<Mark>, at: nat)
    requires RowAt(marks, last, at) && at + |last| == |marks| && !IsComma(last)
    ensures CommaPatches(marks, |marks|) == CommaPatches(marks, at)
  {
    CommaPatchesGrow(marks, last, at);
  }

  lemma NothingLeft(tokens: seq<Token>, body: seq<Token>)
    ensures tokens + [] + body[|body|..] == tokens
  {
  }

  /** What the whole scan leaves. */
  lemma ScanResult(sig: Signature, body: seq<Token>)
    ensures var marks, s := Marks(sig, body), Turns(sig, Scan(body, 0, [], [], []));
            && s.value == Tokens(marks) && s.strs == StrPatches(marks, |marks|)
            && s.commas == CommaPatches(marks, |marks|)
            && SortDescending(s.patch) == Reversed(Patches(marks, |marks|))
  {
    var start := Scan(body, 0, [], [], []);
    TurnsReachEnd(sig, body);
    if body != [] {
      LastRow(sig, body);
    }
    ScanEnd(Rows(sig, body), Marks(sig, body), body, Turns(sig, start));
    PatchesSorted(Marks(sig, body));
  }

  lemma PatchesSorted(marks: seq<Mark>)
    ensures SortDescending(Patches(marks, |marks|)) == Reversed(Patches(marks, |marks|))
  {
    PatchesIncrease(marks, |marks|);
    SortingReverses(Patches(marks, |marks|));
  }

  lemma LastRow(sig: Signature, body: seq<Token>)
    requires body != []
    ensures |Before(Rows(sig, body), |body|)| > 0 && !IsComma(Before(Rows(sig, body), |body|))
  {
    assert Rows(sig, body)[|body| - 1] == MarkAt(sig, body, |body| - 1);
  }

  class Macro {
    const sig: Signature
    var value: seq<Token>
    var patch: seq<Patch>
    var strPatch: seq<StrPatch>
    var varCommaPatch: seq<nat>

    constructor (sig: Signature, body: seq<Token>)
      ensures this.sig == sig && value == body
    {
      this.sig := sig;
      value := body;
      patch, strPatch, varCommaPatch := [], [], [];
    }

    /** The scan finished: every position is that of its mark in what is left of the body. */
    ghost predicate Scanned(body: seq<Token>)
      reads this
    {
      var marks := Marks(sig, body);
      && value == Tokens(marks) && strPatch == StrPatches(marks, |marks|)
      && varCommaPatch == CommaPatches(marks, |marks|) && patch == Reversed(Patches(marks, |marks|))
    }

    /** The turn of the scan at `i`. */
    method ScanToken(i: nat) returns (next: nat)
      requires i < |value|
      modifies this
      ensures Scan(value, next, patch, strPatch, varCommaPatch)
           == Turn(sig, old(Scan(value, i, patch, strPatch, varCommaPatch)))
    {
      var t := value[i];
      next := i;
      if t.Id? && t.name in sig.params {
        var argnum := IndexOf(sig.params, t.name);
        if i > 0 && value[i - 1] == Hash {
          value := value[..i - 1] + [Other(t.name)] + value[i + 1..];
          strPatch := strPatch + [StrPatch(argnum, i - 1)];
          return;
        } else if i > 0 && value[i - 1] == Paste {
          patch := patch + [Patch(Raw, argnum, i - 1)];
          value := value[..i - 1] + value[i..];
          return;
        } else if i + 1 < |value| && value[i + 1] == Paste {
          patch := patch + [Patch(Raw, argnum, i)];
          next := i + 1;
          return;
        } else {
          patch := patch + [Patch(Full, argnum, i)];
        }
      } else if t == Paste {
        if sig.variadic && i > 0 && value[i - 1] == Comma && i + 1 < |value|
           && sig.params != [] && value[i + 1] == Id(sig.params[|sig.params| - 1]) {
          varCommaPatch := varCommaPatch + [i - 1];
        }
      }
      next := i + 1;
    }

    method Prescan()
      modifies this
      ensures Scanned(old(value))
    {
      patch, strPatch, varCommaPatch := [], [], [];
      ghost var end := Turns(sig, Scan(value, 0, [], [], []));
      ScanResult(sig, value);
      var i := 0;
      while i < |value|
        invariant 0 <= i <= |value| && Turns(sig, Scan(value, i, patch, strPatch, varCommaPatch)) == end
        decreases |value| - i
      {
        i := ScanToken(i);
      }
      patch := SortDescending(patch);
    }

    /** The marks that this macro's fields record. */
    ghost predicate Recorded(marks: seq<Mark>)
      reads this
    {
      && value == Tokens(marks) && strPatch == StrPatches(marks, |marks|)
      && varCommaPatch == CommaPatches(marks, |marks|) && patch == Reversed(Patches(marks, |marks|))
      && ArgsFit(marks, |sig.params|)
    }

    /** Parameters after `#` become strings of their arguments as written. */
    method StringPatches(args: seq<seq<Token>>, ghost marks: seq<Mark>) returns (rep: seq<Option<Token>>)
      requires Recorded(marks) && |args| == |sig.params|
      ensures rep == Cells(marks, args, false)
    {
      rep := Holes(value);
      ghost var before, done := rep, Cells(marks, args, false);
      forall j | 0 <= j < |marks| ensures before[j] == Some(TokenOf(marks[j])) {
        TokensAt(marks, j);
      }
      var strings: map<nat, Token> := map[];
      for q := 0 to |strPatch|
        invariant |rep| == |marks|
        invariant forall n | n in strings :: n < |args| && strings[n] == Stringified(args[n])
        invariant forall j | 0 <= j < |marks| ::
          rep[j] == if marks[j].Quoted? && StrPatch(marks[j].arg, j) in strPatch[..q] then done[j] else before[j]
      {
        StrTarget(marks, args, q);
        var p := strPatch[q];
        if p.arg !in strings {
          strings := strings[p.arg := Stringified(args[p.arg])];
        }
        rep := rep[p.at := Some(strings[p.arg])];
        assert strPatch[..q + 1] == strPatch[..q] + [p];
      }
      forall j | 0 <= j < |marks| && marks[j].Quoted? ensures StrPatch(marks[j].arg, j) in strPatch[..|strPatch|] {
        StrIsRecorded(marks, |marks|, j);
      }
    }

    /** The comma before the variable arguments goes when they are empty. */
    method CommaPatch(args: seq<seq<Token>>, cells: seq<Option<Token>>, ghost marks: seq<Mark>)
      returns (rep: seq<Option<Token>>, commaPatch: bool)
      requires Recorded(marks) && |args| == |sig.params| && (sig.variadic ==> |args| > 0)
      requires cells == Cells(marks, args, false)
      ensures rep == Cells(marks, args, sig.variadic && args[|args| - 1] == [])
      ensures commaPatch
         <==> sig.variadic && args[|args| - 1] == [] && exists j :: 0 <= j < |marks| && marks[j].Swallow?
    {
      rep, commaPatch := cells, false;
      if sig.variadic && args[|args| - 1] == [] {
        for q := 0 to |varCommaPatch|
          invariant |rep| == |marks| && (commaPatch <==> q > 0)
          invariant forall j | 0 <= j < |marks| ::
            rep[j] == if marks[j].Swallow? && j in varCommaPatch[..q] then None else cells[j]
        {
          CommaPointsAtMark(marks, |marks|, q);
          rep := rep[varCommaPatch[q] := None];
          commaPatch := true;
          assert varCommaPatch[..q + 1] == varCommaPatch[..q] + [varCommaPatch[q]];
        }
        forall j | 0 <= j < |marks| && marks[j].Swallow? ensures j in varCommaPatch[..|varCommaPatch|] {
          CommaIsRecorded(marks, |marks|, j);
        }
        if commaPatch {
          CommaPointsAtMark(marks, |marks|, 0);
        }
      }
    }

    method SpliceOne(p: Patch, args: array<seq<Token>>, expand: Expander, rep: seq<Option<Token>>,
                     memo: map<nat, seq<Token>>)
      returns (next: seq<Option<Token>>, expanded: map<nat, seq<Token>>)
      requires p.at < |rep| && p.arg < args.Length
      modifies args
      ensures Splicing(next, args[..], expanded) == OneSplice(p, old(Splicing(rep, args[..], memo)), expand)
    {
      expanded := memo;
      if p.kind == Raw {
        next := rep[..p.at] + Holes(args[p.arg]) + rep[p.at + 1..];
      } else {
        if p.arg !in expanded {
          args[p.arg] := expand(args[p.arg]);
          expanded := expanded[p.arg := args[p.arg]];
        }
        next := rep[..p.at] + Holes(expanded[p.arg]) + rep[p.at + 1..];
      }
    }

    method SpliceAll(patch: seq<Patch>, args: array<seq<Token>>, expand: Expander, cells: seq<Option<Token>>)
      returns (rep: seq<Option<Token>>)
      requires AllInReach(patch, 0, Splicing(cells, args[..], map[]), expand)
      modifies args
      ensures var end := Splices(patch, 0, old(Splicing(cells, args[..], map[])), expand);
              rep == end.rep && args[..] == end.args
    {
      rep := cells;
      var memo: map<nat, seq<Token>> := map[];
      ghost var end := Splices(patch, 0, Splicing(rep, args[..], memo), expand);
      for q := 0 to |patch|
        invariant AllInReach(patch, q, Splicing(rep, args[..], memo), expand)
        invariant Splices(patch, q, Splicing(rep, args[..], memo), expand) == end
      {
        rep, memo := SpliceOne(patch[q], args, expand, rep, memo);
      }
    }

    /** The remaining splices, largest position first. */
    method Splice(args: array<seq<Token>>, expand: Expander, swallow: bool, cells: seq<Option<Token>>,
                  ghost marks: seq<Mark>)
      returns (rep: seq<Option<Token>>)
      requires Recorded(marks) && args.Length == |sig.params| && cells == Cells(marks, args[..], swallow)
      modifies args
      ensures rep == Spliced(marks, old(args[..]), expand, swallow, 0)
      ensures forall n | 0 <= n < args.Length ::
                args[n] == if ExpandedFrom(marks, 0, n) then expand(old(args[n])) else old(args[n])
    {
      ghost var was := args[..];
      SplicesResult(marks, was, expand, swallow, patch);
      rep := SpliceAll(patch, args, expand, cells);
      forall n | 0 <= n < args.Length
        ensures args[n] == if ExpandedFrom(marks, 0, n) then expand(old(args[n])) else old(args[n])
      {
        assert args[n] == args[..][n] && old(args[n]) == was[n];
      }
    }

    /** The whole expansion: strings, the comma, the splices, and the holes taken out. */
    method ExpandArgs(args: array<seq<Token>>, expand: Expander, ghost marks: seq<Mark>)
      returns (rep: seq<Option<Token>>)
      requires Recorded(marks) && args.Length == |sig.params| && (sig.variadic ==> args.Length > 0)
      modifies args
      ensures rep == Holes(Replaced(marks, old(args[..]), expand,
                                    sig.variadic && old(args[args.Length - 1]) == [], 0))
      ensures forall n | 0 <= n < args.Length ::
                args[n] == if ExpandedFrom(marks, 0, n) then expand(old(args[n])) else old(args[n])
    {
      ghost var was := args[..];
      var swallow := sig.variadic && args[args.Length - 1] == [];
      rep := StringPatches(args[..], marks);
      var commaPatch;
      rep, commaPatch := CommaPatch(args[..], rep, marks);
      rep := Splice(args, expand, swallow, rep, marks);
      SplicedIsReplaced(marks, was, expand, swallow, 0);
      if commaPatch {
        rep := Filtered(rep);
      } else {
        HolesAreCommas(marks, was, expand, swallow, 0);
        FilteredFull(rep);
      }
    }
  }

  /** After the scan the fields record the marks of the body as it was defined. */
  lemma ScannedIsRecorded(m: Macro, body: seq<Token>)
    requires m.Scanned(body)
    ensures m.Recorded(Marks(m.sig, body))
  {
    MarksFit(m.sig, body);
  }

  lemma SplicedAsSubstituted(marks: seq<Mark>, args: seq<seq<Token>>, expand: Expander, swallow: bool,
                             meant: seq<Token>)
    requires ArgsFit(marks, |args|) && PastesComeLast(marks, 0)
    requires Substituted(marks, args, expand, swallow, 0) == meant
    ensures Replaced(marks, args, expand, swallow, 0) == meant
    ensures Replaced(marks, args, expand, swallow, 0) == Substituted(marks, args, expand, swallow, 0)
  {
    SplicingIsSubstitution(marks, args, expand, swallow, 0);
  }

  /** A definition and one use of it: the result is the body with all its places replaced,
      and that is simultaneous substitution when no parameter is pasted to the left of a
      place where it is expanded. */
  method DefineAndExpand(sig: Signature, body: seq<Token>, args: array<seq<Token>>, expand: Expander)
    returns (rep: seq<Option<Token>>)
    requires args.Length == |sig.params| && (sig.variadic ==> args.Length > 0)
    modifies args
    ensures var marks, was := Marks(sig, body), old(args[..]);
            var swallow := sig.variadic && was[|was| - 1] == [];
            && ArgsFit(marks, |was|)
            && rep == Holes(Replaced(marks, was, expand, swallow, 0))
            && (PastesComeLast(marks, 0) ==> rep == Holes(Substituted(marks, was, expand, swallow, 0)))
            && (PastesComeLast(marks, 0) ==> rep == Holes(AllMeant(sig, body, was, expand, |body|)))
  {
    var m := new Macro(sig, body);
    m.Prescan();
    ScannedIsRecorded(m, body);
    ghost var marks, was := Marks(sig, body), args[..];
    rep := m.ExpandArgs(args, expand, marks);
    if PastesComeLast(marks, 0) {
      SubstitutionIsMeant(sig, body, was, expand);
      SplicedAsSubstituted(marks, was, expand, sig.variadic && was[|was| - 1] == [],
                           AllMeant(sig, body, was, expand, |body|));
    }
  }
}
