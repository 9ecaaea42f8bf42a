/** The subtree walk of delete_folder and its preview (backend/src/ragz/modules/documents/folders.py)
    against the database's own cascade. */
module FolderWalk {
  import opened Prelude
  import opened FolderKeys

  /** A chain that stays in one workspace below its root. */
  ghost predicate LeadsWithin(folders: map<Id, Folder>, root: Id, f: Id, workspace: Id, path: seq<Id>) {
    && path != [] && path[0] == root && path[|path| - 1] == f
    && (forall i :: 0 < i < |path| ==> path[i] in folders && folders[path[i]].workspace == workspace
                                       && folders[path[i]].parent == Some(path[i - 1]))
  }

  ghost predicate Within(folders: map<Id, Folder>, root: Id, f: Id, workspace: Id, depth: nat) {
    exists path :: LeadsWithin(folders, root, f, workspace, path) && |path| <= depth + 1
  }

  ghost predicate ExactlyAt(folders: map<Id, Folder>, root: Id, f: Id, workspace: Id, depth: nat) {
    exists path :: LeadsWithin(folders, root, f, workspace, path) && |path| == depth + 1
  }

  ghost predicate LevelEmpty(folders: map<Id, Folder>, root: Id, workspace: Id, depth: nat) {
    forall g :: !ExactlyAt(folders, root, g, workspace, depth)
  }

  function Select(folders: map<Id, Folder>, frontier: set<Id>, workspace: Id): set<Id> {
    set c | c in folders && folders[c].workspace == workspace
            && folders[c].parent.Some? && folders[c].parent.value in frontier
  }

  lemma NextLevel(folders: map<Id, Folder>, root: Id, workspace: Id, depth: nat, frontier: set<Id>)
    requires forall f :: f in frontier <==> ExactlyAt(folders, root, f, workspace, depth)
    ensures forall f :: f in Select(folders, frontier, workspace) <==> ExactlyAt(folders, root, f, workspace, depth + 1)
  {
    forall f ensures f in Select(folders, frontier, workspace) <==> ExactlyAt(folders, root, f, workspace, depth + 1) {
      if f in Select(folders, frontier, workspace) {
        var path :| LeadsWithin(folders, root, folders[f].parent.value, workspace, path) && |path| == depth + 1;
        assert LeadsWithin(folders, root, f, workspace, path + [f]);
      }
      if ExactlyAt(folders, root, f, workspace, depth + 1) {
        var path :| LeadsWithin(folders, root, f, workspace, path) && |path| == depth + 2;
        assert LeadsWithin(folders, root, path[depth], workspace, path[..depth + 1]);
      }
    }
  }

  /** Every chain passes through each smaller depth. */
  lemma PassesThrough(folders: map<Id, Folder>, root: Id, f: Id, workspace: Id, path: seq<Id>, depth: nat)
    requires LeadsWithin(folders, root, f, workspace, path) && depth < |path|
    ensures ExactlyAt(folders, root, path[depth], workspace, depth)
  {
    assert LeadsWithin(folders, root, path[depth], workspace, path[..depth + 1]);
  }

  lemma NothingBelow(folders: map<Id, Folder>, root: Id, workspace: Id, depth: nat, rows: set<Id>)
    requires rows == {} && forall f :: f in rows <==> ExactlyAt(folders, root, f, workspace, depth)
    ensures LevelEmpty(folders, root, workspace, depth)
  {
    forall g ensures !ExactlyAt(folders, root, g, workspace, depth) {
      assert g !in rows;
    }
  }

  lemma WalkEnded(folders: map<Id, Folder>, root: Id, workspace: Id, depth: nat, more: nat)
    requires depth <= more && LevelEmpty(folders, root, workspace, depth + 1)
    ensures forall f :: Within(folders, root, f, workspace, more) <==> Within(folders, root, f, workspace, depth)
  {
    forall f, path | LeadsWithin(folders, root, f, workspace, path) ensures |path| <= depth + 1 {
      if |path| > depth + 1 {
        PassesThrough(folders, root, f, workspace, path, depth + 1);
        assert false;
      }
    }
  }

  /** The breadth-first walk of delete_folder and its preview. Rows of one level come back in some
      order; only which ones matters here. */
  method CollectSubtree(folders: map<Id, Folder>, root: Id, workspace: Id) returns (ids: set<Id>)
    ensures forall f :: f in ids <==> Within(folders, root, f, workspace, MAX_TREE_DEPTH)
  {
    ids := {root};
    var frontier := {root};
    assert LeadsWithin(folders, root, root, workspace, [root]);
    var depth := 0;
    while depth < MAX_TREE_DEPTH
      invariant 0 <= depth <= MAX_TREE_DEPTH
      invariant forall f :: f in frontier <==> ExactlyAt(folders, root, f, workspace, depth)
      invariant forall f :: f in ids <==> Within(folders, root, f, workspace, depth)
    {
      var rows := Select(folders, frontier, workspace);
      NextLevel(folders, root, workspace, depth, frontier);
      if rows == {} {
        NothingBelow(folders, root, workspace, depth + 1, rows);
        WalkEnded(folders, root, workspace, depth, MAX_TREE_DEPTH);
        return;
      }
      forall f ensures Within(folders, root, f, workspace, depth + 1)
                       <==> Within(folders, root, f, workspace, depth)
                            || ExactlyAt(folders, root, f, workspace, depth + 1) {
      }
      ids := ids + rows;
      frontier := rows;
      depth := depth + 1;
    }
  }

  // ---------------------------------------------------------------- both as climbs

  /** n steps up from f lies the root. */
  predicate Reaches(folders: map<Id, Folder>, f: Id, root: Id, n: nat) { Climb(folders, Some(f), n) == Some(root) }

  predicate InWorkspace(folders: map<Id, Folder>, at: Option<Id>, workspace: Id) {
    at.Some? && at.value in folders && folders[at.value].workspace == workspace
  }

  /** And every folder below it on the way is in the workspace. */
  predicate ReachesWithin(folders: map<Id, Folder>, f: Id, root: Id, workspace: Id, n: nat) {
    Reaches(folders, f, root, n) && forall k: nat | k < n :: InWorkspace(folders, Climb(folders, Some(f), k), workspace)
  }

  /** Climbing from the end of a chain retraces it. */
  lemma {:induction false} ChainIsClimb(folders: map<Id, Folder>, path: seq<Id>, k: nat)
    requires k < |path|
    requires forall i :: 0 < i < |path| ==> path[i] in folders && folders[path[i]].parent == Some(path[i - 1])
    ensures Climb(folders, Some(path[|path| - 1]), k) == Some(path[|path| - 1 - k])
    decreases k
  {
    if k > 0 {
      ChainIsClimb(folders, path, k - 1);
      ClimbOn(folders, Some(path[|path| - 1]), k - 1);
    }
  }

  /** The folders passed on a climb of n steps, topmost first. */
  function Passed(folders: map<Id, Folder>, f: Id, n: nat): seq<Id>
    requires forall k: nat | k <= n :: Climb(folders, Some(f), k).Some?
  {
    seq(n + 1, i requires 0 <= i <= n => Climb(folders, Some(f), n - i).value)
  }

  lemma ClimbNone(folders: map<Id, Folder>, f: Id)
    ensures Climb(folders, Some(f), 0) == Some(f)
  {
  }

  lemma ClimbIsChain(folders: map<Id, Folder>, f: Id, n: nat)
    requires forall k: nat | k <= n :: Climb(folders, Some(f), k).Some?
    ensures var path := Passed(folders, f, n);
      && path[n] == f && Some(path[0]) == Climb(folders, Some(f), n)
      && forall i :: 0 < i < |path| ==> path[i] in folders && folders[path[i]].parent == Some(path[i - 1])
  {
    hide Climb;
    var path := Passed(folders, f, n);
    assert Climb(folders, Some(f), 0) == Some(f) by { ClimbNone(folders, f); }
    forall i | 0 < i < |path| ensures path[i] in folders && folders[path[i]].parent == Some(path[i - 1]) {
      ClimbOn(folders, Some(f), n - i);
      assert Climb(folders, Some(f), n - i + 1).Some?;
    }
  }

  lemma {:induction false} SomeBelow(folders: map<Id, Folder>, f: Id, n: nat, k: nat)
    requires Climb(folders, Some(f), n).Some? && k <= n
    ensures Climb(folders, Some(f), k).Some?
  {
    if Climb(folders, Some(f), k).None? {
      StaysEnded(folders, Some(f), k, n);
    }
  }

  /** What the walk finds, read off the parent column alone: the folders whose climb reaches the root in
      at most `depth` steps without leaving the workspace. */
  lemma WalkExactly(folders: map<Id, Folder>, root: Id, f: Id, workspace: Id, depth: nat)
    ensures Within(folders, root, f, workspace, depth)
      <==> exists n: nat :: n <= depth && ReachesWithin(folders, f, root, workspace, n)
  {
    hide Climb;
    if Within(folders, root, f, workspace, depth) {
      var path :| LeadsWithin(folders, root, f, workspace, path) && |path| <= depth + 1;
      var n := |path| - 1;
      forall k: nat | k <= n ensures Climb(folders, Some(f), k) == Some(path[n - k]) {
        ChainIsClimb(folders, path, k);
      }
      assert ReachesWithin(folders, f, root, workspace, n);
    }
    if n: nat :| n <= depth && ReachesWithin(folders, f, root, workspace, n) {
      ClimbIsChain(folders, f, n);
      assert LeadsWithin(folders, root, f, workspace, Passed(folders, f, n));
    }
  }

  /** What the database removes: the folders whose climb reaches the root at all, cycles or not. */
  lemma CascadeExactly(folders: map<Id, Folder>, root: Id, f: Id)
    requires root in folders
    ensures f in Doomed(folders, root) <==> exists n: nat :: Reaches(folders, f, root, n)
  {
    hide Climb;
    if f in Doomed(folders, root) {
      var path :| Leads(folders, root, f, path);
      ChainIsClimb(folders, path, |path| - 1);
      assert Reaches(folders, f, root, |path| - 1);
    }
    if n: nat :| Reaches(folders, f, root, n) {
      forall k: nat | k <= n ensures Climb(folders, Some(f), k).Some? {
        SomeBelow(folders, f, n, k);
      }
      ClimbIsChain(folders, f, n);
      assert Leads(folders, root, f, Passed(folders, f, n));
    }
  }

  // ---------------------------------------------------------------- walk and cascade

  /** The root lies at most as many steps up as the walk goes down. */
  ghost predicate Near(folders: map<Id, Folder>, root: Id, f: Id) {
    exists n: nat :: n <= MAX_TREE_DEPTH && Reaches(folders, f, root, n)
  }

  /** Where workspaces do not mix, leaving the workspace is never what stops the walk. */
  lemma {:induction false} ClimbOneWorkspace(db: Db, f: Id, n: nat, k: nat)
    requires Homogeneous(db) && k <= n && Climb(db.folders, Some(f), n).Some?
    requires Climb(db.folders, Some(f), n).value in db.folders
    ensures InWorkspace(db.folders, Climb(db.folders, Some(f), k),
                        db.folders[Climb(db.folders, Some(f), n).value].workspace)
    decreases n - k
  {
    hide Climb;
    if k < n {
      ClimbOneWorkspace(db, f, n, k + 1);
      SomeBelow(db.folders, f, n, k);
      SomeBelow(db.folders, f, n, k + 1);
      ClimbOn(db.folders, Some(f), k);
    }
  }

  lemma WalkIsNear(db: Db, root: Id, f: Id)
    requires Homogeneous(db) && root in db.folders
    ensures Within(db.folders, root, f, db.folders[root].workspace, MAX_TREE_DEPTH) <==> Near(db.folders, root, f)
  {
    hide Climb, Within;
    var workspace := db.folders[root].workspace;
    WalkExactly(db.folders, root, f, workspace, MAX_TREE_DEPTH);
    if n: nat :| n <= MAX_TREE_DEPTH && Reaches(db.folders, f, root, n) {
      forall k: nat | k < n ensures InWorkspace(db.folders, Climb(db.folders, Some(f), k), workspace) {
        ClimbOneWorkspace(db, f, n, k);
      }
      assert ReachesWithin(db.folders, f, root, workspace, n);
    }
  }

  /** The folders delete_folder collects. */
  ghost predicate Walked(db: Db, root: Id, f: Id)
    requires root in db.folders
  {
    Within(db.folders, root, f, db.folders[root].workspace, MAX_TREE_DEPTH)
  }

  /** The documents delete_folder marks for deletion. */
  ghost predicate Collected(db: Db, root: Id, d: Document)
    requires root in db.folders
  {
    d.folder.Some? && d.workspace == db.folders[root].workspace && Walked(db, root, d.folder.value)
  }

  ghost predicate FiledNear(db: Db, root: Id, d: Document) { d.folder.Some? && Near(db.folders, root, d.folder.value) }

  /** The cascade clears the document's folder. */
  ghost predicate Unfolders(db: Db, root: Id, d: Id) {
    d in db.documents && AfterDelete(db, root).documents[d] != db.documents[d]
  }

  /** Exactly when delete_folder keeps its word. The walk finds the folders the cascade removes if and
      only if each of those lies at most 1000 levels below the deleted one. A document is marked for
      deletion if and only if its own folder lies that near; every marked one loses its folder, and
      every one that loses its folder is marked if and only if none of them was filed deeper. */
  lemma WalkMatchesCascade(db: Db, root: Id)
    requires KeysOk(db) && Homogeneous(db) && root in db.folders
    ensures (forall f :: Walked(db, root, f) <==> f in Doomed(db.folders, root))
      <==> (forall f :: f in Doomed(db.folders, root) ==> Near(db.folders, root, f))
    ensures forall d :: d in db.documents ==>
              (Collected(db, root, db.documents[d]) <==> FiledNear(db, root, db.documents[d]))
    ensures forall d :: d in db.documents && Collected(db, root, db.documents[d]) ==> Unfolders(db, root, d)
    ensures (forall d :: Unfolders(db, root, d) ==> Collected(db, root, db.documents[d]))
      <==> (forall d :: Unfolders(db, root, d) ==> FiledNear(db, root, db.documents[d]))
  {
    hide Climb, Within, Reaches, Descendant;
    forall f
      ensures Walked(db, root, f) <==> Near(db.folders, root, f)
      ensures Near(db.folders, root, f) ==> f in Doomed(db.folders, root)
    {
      WalkIsNear(db, root, f);
      CascadeExactly(db.folders, root, f);
    }
    forall d | d in db.documents
      ensures Collected(db, root, db.documents[d]) <==> FiledNear(db, root, db.documents[d])
    {
      assert DocumentOk(db, db.documents[d]);
      if FiledNear(db, root, db.documents[d]) {
        FiledInWorkspace(db, root, db.documents[d]);
      }
    }
  }

  /** Even where workspaces do mix, whatever is marked lies in the deleted folder's workspace, and so do its
      folder and every folder between the two. */
  lemma MarkedInWorkspace(db: Db, root: Id, d: Document)
    requires root in db.folders && Collected(db, root, d)
    ensures d.workspace == db.folders[root].workspace && d.folder.Some?
    ensures exists n: nat :: n <= 1000 && ReachesWithin(db.folders, d.folder.value, root, d.workspace, n)
  {
    WalkExactly(db.folders, root, d.folder.value, d.workspace, MAX_TREE_DEPTH);
  }

  lemma FiledInWorkspace(db: Db, root: Id, d: Document)
    requires Homogeneous(db) && root in db.folders && d in db.documents.Values
    requires d.folder.Some? && d.folder.value in db.folders && Near(db.folders, root, d.folder.value)
    ensures d.workspace == db.folders[root].workspace
  {
    var n: nat :| n <= MAX_TREE_DEPTH && Reaches(db.folders, d.folder.value, root, n);
    ClimbOneWorkspace(db, d.folder.value, n, 0);
  }

  // ---------------------------------------------------------------- subtrees of a thousand and one

  ghost predicate Distinct(path: seq<Id>) { forall i, j :: 0 <= i < j < |path| ==> path[i] != path[j] }

  /** A chain can be cut to one that visits no folder twice. */
  lemma {:induction false} ShortChain(folders: map<Id, Folder>, root: Id, f: Id, path: seq<Id>) returns (short: seq<Id>)
    requires Leads(folders, root, f, path)
    ensures Leads(folders, root, f, short) && Distinct(short)
    decreases |path|
  {
    if Distinct(path) {
      short := path;
    } else {
      var i, j :| 0 <= i < j < |path| && path[i] == path[j];
      short := ShortChain(folders, root, f, path[..i] + path[j..]);
    }
  }

  lemma {:induction false} DistinctFits(path: seq<Id>, ids: set<Id>)
    requires Distinct(path) && forall i :: 0 <= i < |path| ==> path[i] in ids
    ensures |path| <= |ids|
    decreases |path|
  {
    if path != [] {
      var n := |path| - 1;
      DistinctFits(path[..n], ids - {path[n]});
    }
  }

  lemma ChainDoomed(folders: map<Id, Folder>, root: Id, f: Id, path: seq<Id>)
    requires Leads(folders, root, f, path)
    ensures forall i :: 0 <= i < |path| ==> path[i] in Doomed(folders, root)
  {
    forall i | 0 <= i < |path| ensures path[i] in Doomed(folders, root) {
      assert Leads(folders, root, path[i], path[..i + 1]);
    }
  }

  /** A subtree of at most a thousand and one folders is never too deep, cycles or not. */
  lemma SmallSubtreeIsNear(folders: map<Id, Folder>, root: Id, f: Id)
    requires f in Doomed(folders, root) && |Doomed(folders, root)| <= MAX_TREE_DEPTH + 1
    ensures Near(folders, root, f)
  {
    hide Climb;
    var path :| Leads(folders, root, f, path);
    var short := ShortChain(folders, root, f, path);
    ChainDoomed(folders, root, f, short);
    DistinctFits(short, Doomed(folders, root));
    ChainIsClimb(folders, short, |short| - 1);
    assert Reaches(folders, f, root, |short| - 1);
  }

  /** A straight line of folders, each the parent of the next. */
  function Line(length: nat): map<Id, Folder> { map f: Id | f < length :: Under(f) }

  function Under(f: Id): Folder { Folder(0, 0, if f == 0 then None else Some(f - 1), 0) }

  lemma {:induction false} LineChain(length: nat, f: Id, path: seq<Id>)
    requires LeadsWithin(Line(length), 0, f, 0, path)
    ensures |path| == f + 1
    decreases |path|
  {
    if |path| > 1 {
      LineChain(length, path[|path| - 2], path[..|path| - 1]);
    }
  }

  /** One folder more and the promise fails: the last of a line of 1002 folders goes with the cascade,
      but the walk never reaches it, so its documents are not deleted and only lose their folder. */
  lemma DeepFolderMissed(d: Document)
    requires d.folder == Some(MAX_TREE_DEPTH + 1)
    ensures var db := Db(map[0 := 0], map[0 := 0], Line(MAX_TREE_DEPTH + 2), map[0 := d], map[]);
      !Collected(db, 0, d) && AfterDelete(db, 0).documents[0] == d.(folder := None)
  {
    var folders := Line(MAX_TREE_DEPTH + 2);
    var path := seq(MAX_TREE_DEPTH + 2, i requires i >= 0 => i as Id);
    assert Leads(folders, 0, MAX_TREE_DEPTH + 1, path);
    forall p | LeadsWithin(folders, 0, MAX_TREE_DEPTH + 1, 0, p) ensures |p| == MAX_TREE_DEPTH + 2 {
      LineChain(MAX_TREE_DEPTH + 2, MAX_TREE_DEPTH + 1, p);
    }
  }
}
