/** Which nodes the searches for reads and writes find, said of paths in the tree. */
module NodeEvents {
  import opened Prelude
  import opened NodeIndex

  /** The first kid is this variable. */
  predicate OfVariable(a: Indexed, name: string) {
    |a.kids| > 0 && a.kids[0].kind == Id(name)
  }

  /** The node declares the variable, steps it, or assigns to it. */
  predicate IsWriteTo(a: Indexed, name: string) {
    || (a.kind.Decl? && a.kind.declared == Some(name))
    || (a.kind.Unary? && a.kind.op in {"++", "--", "p++", "p--"} && OfVariable(a, name))
    || (a.kind.Assign? && OfVariable(a, name))
  }

  /** A step from a node to its kid `i` that may lead to something read: not from the name of
      a variable or from `&x`, to the initial value of a declaration only, to the struct and
      not its member, and not from an assignment to a plain variable. */
  predicate IsReadThrough(a: Indexed, i: nat) {
    && !a.kind.Id?
    && (a.kind.Decl? ==> a.kind.init == Some(i))
    && (a.kind.Unary? && a.kind.op == "&" ==> |a.kids| == 0 || !a.kids[0].kind.Id?)
    && (a.kind.StructRef? ==> i == 0)
    && (a.kind.Assign? ==> |a.kids| == 0 || !a.kids[0].kind.Id?)
  }

  /** Every step of the path may lead to something read. */
  predicate IsReadPath(t: Indexed, path: seq<nat>)
    requires HasPath(t, path)
    decreases |path|
  {
    |path| == 0 || (IsReadThrough(t, path[0]) && IsReadPath(t.kids[path[0]], path[1..]))
  }

  predicate FoundAt(t: Indexed, forReads: bool, path: seq<nat>, name: string, loc: nat) {
    && HasPath(t, path) && At(t, path).start == loc
    && (if forReads then IsReadPath(t, path) && At(t, path).kind == Id(name) else IsWriteTo(At(t, path), name))
  }

  lemma OwnEvent(t: Indexed, forReads: bool, name: string)
    ensures OwnName(t, forReads) == Some(name) <==> if forReads then t.kind == Id(name) else IsWriteTo(t, name)
  {
  }

  lemma VisitedKids(t: Indexed, i: nat)
    ensures Visits(t, false, i) && (Visits(t, true, i) <==> IsReadThrough(t, i))
  {
    if KidName(t).Some? {
      assert OfVariable(t, KidName(t).value);
    }
  }

  lemma InConcat(a: seq<Event>, b: seq<Event>, e: Event)
    ensures e in a + b <==> e in a || e in b
  {
  }

  /** What a kid's search finds. */
  function FromKid(t: Indexed, kids: seq<Indexed>, forReads: bool, i: nat): seq<Event>
    requires i < |kids|
  {
    if Visits(t, forReads, i) then Events(kids[i], forReads) else []
  }

  lemma {:induction false} KidOfEvent(t: Indexed, kids: seq<Indexed>, forReads: bool, k: nat, e: Event)
    returns (i: nat)
    requires k <= |kids| && e in KidEvents(t, kids, forReads, k)
    ensures i < k && e in FromKid(t, kids, forReads, i)
    decreases k
  {
    InConcat(KidEvents(t, kids, forReads, k - 1), FromKid(t, kids, forReads, k - 1), e);
    i := k - 1;
    if e !in FromKid(t, kids, forReads, k - 1) {
      i := KidOfEvent(t, kids, forReads, k - 1, e);
    }
  }

  lemma {:induction false} EventOfKid(t: Indexed, kids: seq<Indexed>, forReads: bool, k: nat, e: Event, i: nat)
    requires i < k <= |kids| && e in FromKid(t, kids, forReads, i)
    ensures e in KidEvents(t, kids, forReads, k)
    decreases k
  {
    InConcat(KidEvents(t, kids, forReads, k - 1), FromKid(t, kids, forReads, k - 1), e);
    if i < k - 1 {
      EventOfKid(t, kids, forReads, k - 1, e, i);
    }
  }

  lemma OwnOrBelow(t: Indexed, forReads: bool, e: Event)
    ensures e in Events(t, forReads)
       <==> FoundAt(t, forReads, [], e.name, e.loc) || e in KidEvents(t, t.kids, forReads, |t.kids|)
  {
    OwnEvent(t, forReads, e.name);
    var own := if OwnName(t, forReads).Some? then [Event(OwnName(t, forReads).value, t.start)] else [];
    InConcat(own, KidEvents(t, t.kids, forReads, |t.kids|), e);
  }

  lemma {:induction false} PathToEvent(t: Indexed, forReads: bool, e: Event) returns (path: seq<nat>)
    requires e in Events(t, forReads)
    ensures FoundAt(t, forReads, path, e.name, e.loc)
    decreases t
  {
    OwnOrBelow(t, forReads, e);
    path := [];
    if !FoundAt(t, forReads, [], e.name, e.loc) {
      var i := KidOfEvent(t, t.kids, forReads, |t.kids|, e);
      var rest := PathToEvent(t.kids[i], forReads, e);
      path := [i] + rest;
      VisitedKids(t, i);
      assert path[1..] == rest;
    }
  }

  lemma {:induction false} EventAtPath(t: Indexed, forReads: bool, path: seq<nat>, e: Event)
    requires FoundAt(t, forReads, path, e.name, e.loc)
    ensures e in Events(t, forReads)
    decreases |path|
  {
    OwnOrBelow(t, forReads, e);
    if |path| > 0 {
      EventAtPath(t.kids[path[0]], forReads, path[1..], e);
      VisitedKids(t, path[0]);
      EventOfKid(t, t.kids, forReads, |t.kids|, e, path[0]);
    } else {
      assert path == [];
    }
  }

  /** The writes found are exactly the nodes anywhere in the tree that declare, step or assign
      the variable; the reads are exactly its names at the ends of read paths. */
  lemma EventsAreThePlaces(t: Indexed, forReads: bool, name: string, loc: nat)
    ensures Event(name, loc) in Events(t, forReads) <==> exists path :: FoundAt(t, forReads, path, name, loc)
  {
    if Event(name, loc) in Events(t, forReads) {
      var path := PathToEvent(t, forReads, Event(name, loc));
    }
    forall path | FoundAt(t, forReads, path, name, loc) ensures Event(name, loc) in Events(t, forReads) {
      EventAtPath(t, forReads, path, Event(name, loc));
    }
  }

  /** A variable's list holds exactly these places. */
  lemma ListedPlaces(t: Indexed, forReads: bool, name: string, loc: nat)
    ensures loc in PlacesOf(Events(t, forReads), name) <==> exists path :: FoundAt(t, forReads, path, name, loc)
  {
    PlacesAreEvents(Events(t, forReads), name, loc);
    EventsAreThePlaces(t, forReads, name, loc);
  }
}
