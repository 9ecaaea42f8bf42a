/** Two folder moves at once: rename_or_move_folder of backend/src/ragz/modules/documents/folders.py takes
    no lock between its ancestor check and its write. */
module FolderMoves {
  import opened Prelude
  import opened FolderKeys

  /** Climbing from a place passes the folder. */
  ghost predicate Meets(folders: map<Id, Folder>, from: Option<Id>, g: Id) {
    exists n: nat :: Climb(folders, from, n) == Some(g)
  }

  lemma {:induction false} ClimbTwice(folders: map<Id, Folder>, from: Option<Id>, a: nat, b: nat)
    ensures Climb(folders, from, a + b) == Climb(folders, Climb(folders, from, a), b)
    decreases a
  {
    if a > 0 && from.Some? {
      ClimbTwice(folders, ParentOf(folders, from.value), a - 1, b);
    }
  }

  /** Where a climb meets g it meets it for a first time. */
  lemma {:induction false} FirstMeeting(folders: map<Id, Folder>, from: Option<Id>, g: Id, n: nat) returns (first: nat)
    requires Climb(folders, from, n) == Some(g)
    ensures first <= n && Climb(folders, from, first) == Some(g)
    ensures forall k: nat | k < first :: Climb(folders, from, k) != Some(g)
    decreases n
  {
    first := n;
    if k: nat :| k < n && Climb(folders, from, k) == Some(g) {
      first := FirstMeeting(folders, from, g, k);
    }
  }

  /** A folder above itself has no root. */
  lemma {:induction false} CycleHasNoRoot(folders: map<Id, Folder>, f: Id, period: nat, n: nat)
    requires period > 0 && Climb(folders, Some(f), period) == Some(f)
    ensures Climb(folders, Some(f), n) != None
    decreases n
  {
    if n >= period {
      ClimbTwice(folders, Some(f), period, n - period);
      CycleHasNoRoot(folders, f, period, n - period);
    } else if Climb(folders, Some(f), n) == None {
      StaysEnded(folders, Some(f), n, period);
    }
  }

  /** Above a place that never leads to f, hanging f elsewhere changes nothing. */
  lemma SameClimb(folders: map<Id, Folder>, f: Id, parent: Option<Id>, from: Option<Id>, clear: nat, steps: nat)
    requires f in folders && ClearAbove(folders, f, from, clear)
    ensures Climb(Hung(folders, f, parent), from, steps) == Climb(folders, from, steps)
  {
    forall k: nat | k < steps ensures Climb(folders, from, k) != Some(f) {
      if k >= clear {
        StaysEnded(folders, from, clear, k);
      }
    }
    ClimbAvoids(folders, f, folders[f].(parent := parent), from, steps);
  }

  /** The first half of the race: after both writes f leads up to g, as its new parent did before. */
  lemma LeadsAcross(folders: map<Id, Folder>, f: Id, p: Option<Id>, a: nat, g: Id, q: Option<Id>) returns (steps: nat)
    requires f in folders && g in folders && f != g
    requires ClearAbove(folders, f, p, a) && Meets(folders, p, g)
    ensures steps > 0 && Climb(Hung(Hung(folders, f, p), g, q), Some(f), steps) == Some(g)
  {
    var one, after := Hung(folders, f, p), Hung(Hung(folders, f, p), g, q);
    var n: nat :| Climb(folders, p, n) == Some(g);
    var first := FirstMeeting(folders, p, g, n);
    forall k: nat | k <= first ensures Climb(one, p, k) == Climb(folders, p, k) {
      SameClimb(folders, f, p, p, a, k);
    }
    ClimbAvoids(one, g, one[g].(parent := q), p, first);
    steps := first + 1;
    assert ParentOf(after, f) == p;
  }

  lemma HungApart(folders: map<Id, Folder>, f: Id, p: Option<Id>, g: Id, q: Option<Id>)
    requires f in folders && g in folders && f != g
    ensures Hung(Hung(folders, f, p), g, q) == Hung(Hung(folders, g, q), f, p)
  {
  }

  /** One side clear is enough: if g's new place does not lead to f, the second write finds the way up
      from it as its check did. */
  lemma OneSideClear(folders: map<Id, Folder>, f: Id, p: Option<Id>, a: nat, g: Id, q: Option<Id>, b: nat)
    requires f in folders && g in folders && ClearAbove(folders, f, p, a) && ClearAbove(folders, g, q, b)
    requires !Meets(folders, q, f)
    ensures KeepsRoots(folders, Hung(Hung(folders, f, p), g, q))
  {
    var one := Hung(folders, f, p);
    MovedRooted(folders, f, p, a);
    assert ClearAbove(folders, f, q, b);
    forall k: nat | k <= b ensures Climb(one, q, k) == Climb(folders, q, k) {
      SameClimb(folders, f, p, q, b, k);
    }
    assert ClearAbove(one, g, q, b);
    MovedRooted(one, g, q, b);
  }

  /** Two moves that both passed their check before either wrote: every folder that had a root keeps one
      if and only if not each of the new places led to the other folder. When they did, the two folders
      end up above each other. */
  lemma PairOfMoves(folders: map<Id, Folder>, f: Id, p: Option<Id>, a: nat, g: Id, q: Option<Id>, b: nat)
    requires f in folders && g in folders && ClearAbove(folders, f, p, a) && ClearAbove(folders, g, q, b)
    ensures KeepsRoots(folders, Hung(Hung(folders, f, p), g, q)) <==> !(Meets(folders, p, g) && Meets(folders, q, f))
  {
    hide Climb, KeepsRoots;
    var after := Hung(Hung(folders, f, p), g, q);
    if !Meets(folders, q, f) {
      OneSideClear(folders, f, p, a, g, q, b);
    } else if f == g {
      NeverMeets(folders, g, q, b);
    } else {
      HungApart(folders, f, p, g, q);
      if !Meets(folders, p, g) {
        OneSideClear(folders, g, q, b, f, p, a);
      } else {
        var x := LeadsAcross(folders, f, p, a, g, q);
        var y := LeadsAcross(folders, g, q, b, f, p);
        RaceUproots(folders, after, f, g, q, b, x, y);
      }
    }
  }

  lemma NeverMeets(folders: map<Id, Folder>, f: Id, from: Option<Id>, clear: nat)
    requires ClearAbove(folders, f, from, clear)
    ensures !Meets(folders, from, f)
  {
    forall n: nat ensures Climb(folders, from, n) != Some(f) {
      if n >= clear {
        StaysEnded(folders, from, clear, n);
      }
    }
  }

  lemma RaceUproots(folders: map<Id, Folder>, after: map<Id, Folder>, f: Id, g: Id,
                    q: Option<Id>, b: nat, x: nat, y: nat)
    requires Climb(folders, q, b) == None && Meets(folders, q, f)
    requires x > 0 && Climb(after, Some(f), x) == Some(g) && Climb(after, Some(g), y) == Some(f)
    ensures !KeepsRoots(folders, after)
  {
    var n: nat :| Climb(folders, q, n) == Some(f);
    ClimbTwice(folders, q, n, b);
    StaysEnded(folders, q, b, n + b);
    assert Rooted(folders, f);
    ClimbTwice(after, Some(f), x, y);
    forall m: nat ensures Climb(after, Some(f), m) != None {
      CycleHasNoRoot(after, f, x + y, m);
    }
    assert !Rooted(after, f);
  }

  /** The smallest race: of two folders at the root, each is moved under the other. Both checks pass, and
      together they leave a cycle that hangs from no root. */
  lemma RaceMakesCycle(folders: map<Id, Folder>, f: Id, g: Id)
    requires f != g && f in folders && g in folders && folders[f].parent == None && folders[g].parent == None
    ensures ClearAbove(folders, f, Some(g), 1) && ClearAbove(folders, g, Some(f), 1)
    ensures var after := Hung(Hung(folders, f, Some(g)), g, Some(f));
      !KeepsRoots(folders, after) && Climb(after, Some(f), 2) == Some(f)
  {
    assert Climb(folders, Some(g), 0) == Some(g) && Climb(folders, Some(f), 0) == Some(f);
    assert Climb(folders, Some(g), 1) == None && Climb(folders, Some(f), 1) == None;
    PairOfMoves(folders, f, Some(g), 1, g, Some(f), 1);
    var after := Hung(Hung(folders, f, Some(g)), g, Some(f));
    assert Climb(after, Some(f), 2) == Climb(after, Some(g), 1) == Climb(after, Some(f), 0);
  }

  /** Two requests that both check before either writes. When both are accepted, each folder has its new
      parent, and rooted folders stay rooted exactly in the case above. */
  method RaceMoves(d: Database, one: Caller, f: Id, p: Option<Id>, two: Caller, g: Id, q: Option<Id>)
    returns (first: MoveResult, second: MoveResult)
    requires KeysOk(d.db)
    modifies d
    ensures MoveAnswered(old(d.db), one, f, p, first) && MoveAnswered(old(d.db), two, g, q, second)
    ensures first.Moved? <==> MoveAllowed(old(d.db), one, f, p)
    ensures second.Moved? <==> MoveAllowed(old(d.db), two, g, q)
    ensures first.Moved? && second.Moved? ==>
              d.db == old(d.db).(folders := Hung(Hung(old(d.db.folders), f, p), g, q))
    ensures first.Moved? && second.Moved? ==>
              (KeepsRoots(old(d.db.folders), d.db.folders)
               <==> !(Meets(old(d.db.folders), p, g) && Meets(old(d.db.folders), q, f)))
    ensures !(first.Moved? && second.Moved?) ==> KeepsRoots(old(d.db.folders), d.db.folders)
  {
    hide Climb, KeepsRoots, KeysOk;
    first := d.CheckMove(one, f, p);
    second := d.CheckMove(two, g, q);
    ghost var a: nat, b: nat := 0, 0;
    ghost var before := d.db.folders;
    if first.Moved? {
      a := ClearSteps(before, f, p);
      MovedRooted(before, f, p, a);
    }
    if second.Moved? {
      b := ClearSteps(before, g, q);
      MovedRooted(before, g, q, b);
    }
    if first.Moved? && second.Moved? {
      PairOfMoves(before, f, p, a, g, q, b);
    } else if !first.Moved? && !second.Moved? {
      RootsKept(before);
    }
    if first.Moved? {
      d.WriteMove(f, p);
    }
    if second.Moved? {
      d.WriteMove(g, q);
    }
  }

  lemma ClearSteps(folders: map<Id, Folder>, f: Id, p: Option<Id>) returns (steps: nat)
    requires p.Some? ==> exists n: nat :: ClearAbove(folders, f, p, n)
    ensures ClearAbove(folders, f, p, steps)
  {
    steps := 0;
    if p.Some? {
      steps :| ClearAbove(folders, f, p, steps);
    }
  }

  lemma RootsKept(folders: map<Id, Folder>)
    ensures KeepsRoots(folders, folders)
  {
  }
}
