/** Tenant-paired foreign keys and the folder delete cascade: backend/migrations/versions
    e4f7c1a83b26 and f5a8d2e91c47, with the folder moves of modules/documents/folders.py. */
module FolderKeys {
  import opened Prelude

  type Id = nat
  type Org = nat

  datatype Folder = Folder(org: Org, workspace: Id, parent: Option<Id>, createdBy: Id)
  datatype Document = Document(org: Org, workspace: Id, folder: Option<Id>, createdBy: Id)
  datatype Chat = Chat(org: Org, workspace: Id, user: Id)

  datatype Db = Db(workspaces: map<Id, Org>, users: map<Id, Org>,
                   folders: map<Id, Folder>, documents: map<Id, Document>, chats: map<Id, Chat>)

  /** A row pairs its reference with its own org: the referenced row exists and has the same one. */
  predicate Paired(owners: map<Id, Org>, reference: Id, org: Org) {
    reference in owners && owners[reference] == org
  }

  predicate FolderOk(db: Db, f: Folder) {
    && Paired(db.workspaces, f.workspace, f.org) && Paired(db.users, f.createdBy, f.org)
    && (f.parent.Some? ==> f.parent.value in db.folders && db.folders[f.parent.value].org == f.org)
  }

  predicate DocumentOk(db: Db, d: Document) {
    && Paired(db.workspaces, d.workspace, d.org) && Paired(db.users, d.createdBy, d.org)
    && (d.folder.Some? ==> d.folder.value in db.folders && db.folders[d.folder.value].org == d.org)
  }

  predicate ChatOk(db: Db, c: Chat) { Paired(db.workspaces, c.workspace, c.org) && Paired(db.users, c.user, c.org) }

  /** Every composite key of the two migrations. A null reference is not checked. */
  predicate KeysOk(db: Db) {
    && (forall f :: f in db.folders ==> FolderOk(db, db.folders[f]))
    && (forall d :: d in db.documents ==> DocumentOk(db, db.documents[d]))
    && (forall c :: c in db.chats ==> ChatOk(db, db.chats[c]))
  }

  // ---------------------------------------------------------------- descendants

  /** A chain of folders, each the parent of the next. */
  predicate Chain(folders: map<Id, Folder>, path: seq<Id>) {
    && path != [] && (forall i :: 0 <= i < |path| ==> path[i] in folders)
    && (forall i :: 0 < i < |path| ==> folders[path[i]].parent == Some(path[i - 1]))
  }

  ghost predicate Leads(folders: map<Id, Folder>, root: Id, f: Id, path: seq<Id>) {
    Chain(folders, path) && path[0] == root && path[|path| - 1] == f
  }

  /** The folder itself and everything below it, cycles or not. */
  ghost predicate Descendant(folders: map<Id, Folder>, root: Id, f: Id) { exists path :: Leads(folders, root, f, path) }

  ghost function Doomed(folders: map<Id, Folder>, root: Id): set<Id> {
    set f | f in folders && Descendant(folders, root, f)
  }

  /** Deleting a folder: it and its descendants go, their documents move to the root. */
  ghost function AfterDelete(db: Db, root: Id): Db {
    var gone := Doomed(db.folders, root);
    db.(folders := db.folders - gone, documents := Unfiled(db.documents, gone))
  }

  function Unfiled(documents: map<Id, Document>, gone: set<Id>): (r: map<Id, Document>)
    ensures r.Keys == documents.Keys
  {
    map d | d in documents ::
      if documents[d].folder.Some? && documents[d].folder.value in gone then documents[d].(folder := None)
      else documents[d]
  }

  /** Every folder whose parent is among `parents` is among `kids`. */
  predicate ChildrenIn(folders: map<Id, Folder>, parents: set<Id>, kids: set<Id>) {
    forall c | c in folders && folders[c].parent.Some? && folders[c].parent.value in parents :: c in kids
  }

  lemma {:induction false} ChainInside(folders: map<Id, Folder>, path: seq<Id>, closed: set<Id>)
    requires Chain(folders, path) && path[0] in closed && ChildrenIn(folders, closed, closed)
    ensures path[|path| - 1] in closed
    decreases |path|
  {
    if |path| > 1 {
      ChainInside(folders, path[..|path| - 1], closed);
    }
  }

  lemma ChildOfDescendant(folders: map<Id, Folder>, root: Id, f: Id, c: Id)
    requires Descendant(folders, root, f) && c in folders && folders[c].parent == Some(f)
    ensures Descendant(folders, root, c)
  {
    var path :| Leads(folders, root, f, path);
    assert Leads(folders, root, c, path + [c]);
  }

  lemma {:induction false} ChainOneOrg(db: Db, path: seq<Id>)
    requires KeysOk(db) && Chain(db.folders, path)
    ensures db.folders[path[|path| - 1]].org == db.folders[path[0]].org
    decreases |path|
  {
    if |path| > 1 {
      ChainOneOrg(db, path[..|path| - 1]);
      assert FolderOk(db, db.folders[path[|path| - 1]]);
    }
  }

  // ---------------------------------------------------------------- moves

  const MAX_TREE_DEPTH := 1000

  /** The parent column of a row, null when there is no such row. */
  function ParentOf(folders: map<Id, Folder>, f: Id): Option<Id> { if f in folders then folders[f].parent else None }

  function Climb(folders: map<Id, Folder>, from: Option<Id>, steps: nat): Option<Id>
    decreases steps
  {
    if steps == 0 || from.None? then from else Climb(folders, ParentOf(folders, from.value), steps - 1)
  }

  /** The folder's ancestors end at the root of the tree: it lies on no cycle and above it is none. */
  ghost predicate Rooted(folders: map<Id, Folder>, f: Id) { exists n: nat :: Climb(folders, Some(f), n) == None }

  /** The climb from a place, the root for none, ends after `steps` without meeting the candidate. */
  ghost predicate ClearAbove(folders: map<Id, Folder>, candidate: Id, from: Option<Id>, steps: nat) {
    && Climb(folders, from, steps) == None
    && forall k: nat | k < steps :: Climb(folders, from, k) != Some(candidate)
  }

  lemma {:induction false} ClimbOn(folders: map<Id, Folder>, from: Option<Id>, steps: nat)
    ensures Climb(folders, from, steps + 1)
      == (var at := Climb(folders, from, steps); if at.None? then None else ParentOf(folders, at.value))
    decreases steps
  {
    if steps > 0 && from.Some? {
      ClimbOn(folders, ParentOf(folders, from.value), steps - 1);
    }
  }

  lemma {:induction false} StaysEnded(folders: map<Id, Folder>, from: Option<Id>, steps: nat, more: nat)
    requires Climb(folders, from, steps) == None && steps <= more
    ensures Climb(folders, from, more) == None
    decreases more
  {
    if steps < more {
      StaysEnded(folders, from, steps, more - 1);
      ClimbOn(folders, from, more - 1);
    }
  }

  /** Walks up from a folder; also true when the walk does not end in time. */
  method IsAncestorOrSelf(folders: map<Id, Folder>, candidate: Id, folder: Id) returns (found: bool)
    ensures !found <==> exists n: nat :: n < MAX_TREE_DEPTH && ClearAbove(folders, candidate, Some(folder), n)
  {
    var current := Some(folder);
    for i := 0 to MAX_TREE_DEPTH
      invariant current == Climb(folders, Some(folder), i)
      invariant forall k: nat | k < i :: Climb(folders, Some(folder), k) != Some(candidate)
      invariant forall k: nat | k < i :: Climb(folders, Some(folder), k) != None
    {
      if current == Some(candidate) {
        forall n: nat ensures !ClearAbove(folders, candidate, Some(folder), n) {
          if n <= i && Climb(folders, Some(folder), n) == None {
            StaysEnded(folders, Some(folder), n, i);
          }
        }
        return true;
      }
      if current.None? {
        assert ClearAbove(folders, candidate, Some(folder), i);
        return false;
      }
      ClimbOn(folders, Some(folder), i);
      current := ParentOf(folders, current.value);
    }
    return true;
  }

  lemma {:induction false} ClimbAvoids(folders: map<Id, Folder>, f: Id, moved: Folder, from: Option<Id>, steps: nat)
    requires forall k: nat | k < steps :: Climb(folders, from, k) != Some(f)
    ensures Climb(folders[f := moved], from, steps) == Climb(folders, from, steps)
    decreases steps
  {
    if steps > 0 && from.Some? {
      assert Climb(folders, from, 0) == from;
      var up := ParentOf(folders, from.value);
      forall k: nat | k < steps - 1 ensures Climb(folders, up, k) != Some(f) {
        assert Climb(folders, from, k + 1) == Climb(folders, up, k);
      }
      ClimbAvoids(folders, f, moved, up, steps - 1);
    }
  }

  /** Hanging a folder at a place with no way back to it leaves every rooted folder rooted. */
  lemma {:induction false} MoveKeepsRooted(folders: map<Id, Folder>, f: Id, moved: Folder, clear: nat, g: Id, n: nat)
    requires ClearAbove(folders, f, moved.parent, clear)
    requires Climb(folders, Some(g), n) == None
    ensures Rooted(folders[f := moved], g)
    decreases n
  {
    var after := folders[f := moved];
    if g == f {
      ClimbAvoids(folders, f, moved, moved.parent, clear);
      assert Climb(after, Some(f), clear + 1) == None;
    } else {
      var up := ParentOf(folders, g);
      if up.None? {
        assert Climb(after, Some(g), 1) == None;
      } else {
        MoveKeepsRooted(folders, f, moved, clear, up.value, n - 1);
        var m: nat :| Climb(after, up, m) == None;
        assert Climb(after, Some(g), m + 1) == None;
      }
    }
  }

  /** Every folder lives in its parent's workspace, every document in its folder's. */
  predicate Homogeneous(db: Db) {
    && (forall f | f in db.folders && db.folders[f].parent.Some? ::
          db.folders[f].parent.value in db.folders ==>
            db.folders[db.folders[f].parent.value].workspace == db.folders[f].workspace)
    && (forall d | d in db.documents && db.documents[d].folder.Some? ::
          db.documents[d].folder.value in db.folders ==>
            db.folders[db.documents[d].folder.value].workspace == db.documents[d].workspace)
  }

  datatype MoveResult = Moved | NotFound | Denied | Conflict

  /** Who asks: an organisation and, for an ordinary user, the only workspaces allowed. */
  datatype Caller = Caller(org: Org, only: Option<set<Id>>)

  /** get_folder_checked; None when it raises nothing. */
  function Refusal(db: Db, caller: Caller, f: Id, workspace: Option<Id>): Option<MoveResult> {
    if f !in db.folders || db.folders[f].org != caller.org then Some(NotFound)
    else if caller.only.Some? && db.folders[f].workspace !in caller.only.value then Some(Denied)
    else if workspace.Some? && db.folders[f].workspace != workspace.value then Some(NotFound)
    else None
  }

  /** A folder of the caller's organisation. */
  predicate Visible(db: Db, caller: Caller, f: Id) { f in db.folders && db.folders[f].org == caller.org }

  /** Such a folder in a workspace the caller may use. */
  predicate Usable(db: Db, caller: Caller, f: Id) {
    Visible(db, caller, f) && (caller.only.Some? ==> db.folders[f].workspace in caller.only.value)
  }

  /** Fewer than a thousand steps up from a folder the root is reached, and f is not met. */
  ghost predicate ClearWithin(folders: map<Id, Folder>, f: Id, target: Id) {
    exists n: nat :: n < 1000 && ClearAbove(folders, f, Some(target), n)
  }

  /** How a move is answered, from what is asked of whom: first of the folder, then of its new parent. */
  ghost predicate MoveAnswered(db: Db, caller: Caller, f: Id, newParent: Option<Id>, result: MoveResult) {
    && (!Visible(db, caller, f) ==> result.NotFound?)
    && (Visible(db, caller, f) && !Usable(db, caller, f) ==> result.Denied?)
    && (Usable(db, caller, f) ==>
          match newParent
          case None => result.Moved?
          case Some(target) =>
            if target == f then result.Conflict?
            else if !Visible(db, caller, target) then result.NotFound?
            else if !Usable(db, caller, target) then result.Denied?
            else if db.folders[target].workspace != db.folders[f].workspace then result.NotFound?
            else if ClearWithin(db.folders, f, target) then result.Moved? else result.Conflict?)
  }

  /** Who may move what: only folders of the caller's organisation in workspaces the caller may use, only
      inside one workspace, and never below itself. */
  ghost predicate MoveAllowed(db: Db, caller: Caller, f: Id, newParent: Option<Id>) {
    && f in db.folders && db.folders[f].org == caller.org
    && (caller.only.Some? ==> db.folders[f].workspace in caller.only.value)
    && (newParent.Some? ==>
          && newParent.value in db.folders && db.folders[newParent.value].org == caller.org
          && db.folders[newParent.value].workspace == db.folders[f].workspace
          && ClearWithin(db.folders, f, newParent.value))
  }

  ghost predicate MayHang(db: Db, f: Id, newParent: Option<Id>) {
    && f in db.folders
    && (newParent.Some? ==> newParent.value in db.folders && db.folders[newParent.value].org == db.folders[f].org
                            && db.folders[newParent.value].workspace == db.folders[f].workspace)
  }

  lemma NeverBelowItself(folders: map<Id, Folder>, f: Id)
    ensures !ClearWithin(folders, f, f)
  {
    assert Climb(folders, Some(f), 0) == Some(f);
  }

  lemma MovedKeys(db: Db, f: Id, newParent: Option<Id>)
    requires KeysOk(db) && MayHang(db, f, newParent)
    ensures KeysOk(db.(folders := db.folders[f := db.folders[f].(parent := newParent)]))
  {
    var after := db.(folders := db.folders[f := db.folders[f].(parent := newParent)]);
    forall g | g in after.folders ensures FolderOk(after, after.folders[g]) {
      assert FolderOk(db, db.folders[g]);
    }
    forall d | d in db.documents ensures DocumentOk(after, after.documents[d]) {
      assert DocumentOk(db, db.documents[d]);
    }
    assert forall c :: c in db.chats ==> ChatOk(db, db.chats[c]);
  }

  lemma MovedHomogeneous(db: Db, f: Id, newParent: Option<Id>)
    requires MayHang(db, f, newParent)
    ensures Homogeneous(db) ==> Homogeneous(db.(folders := db.folders[f := db.folders[f].(parent := newParent)]))
  {
  }

  /** The parent column of f rewritten. */
  function Hung(folders: map<Id, Folder>, f: Id, parent: Option<Id>): map<Id, Folder>
    requires f in folders
  {
    folders[f := folders[f].(parent := parent)]
  }

  /** Every folder that had a root still has one. */
  ghost predicate KeepsRoots(before: map<Id, Folder>, after: map<Id, Folder>) {
    forall g :: Rooted(before, g) ==> Rooted(after, g)
  }

  lemma MovedRooted(folders: map<Id, Folder>, f: Id, newParent: Option<Id>, clear: nat)
    requires f in folders && ClearAbove(folders, f, newParent, clear)
    ensures KeepsRoots(folders, Hung(folders, f, newParent))
  {
    forall g | Rooted(folders, g) ensures Rooted(Hung(folders, f, newParent), g) {
      var n: nat :| Climb(folders, Some(g), n) == None;
      MoveKeepsRooted(folders, f, folders[f].(parent := newParent), clear, g, n);
    }
  }

  // ---------------------------------------------------------------- the cascade

  class Database {
    var db: Db

    constructor (db: Db)
      ensures this.db == db
    {
      this.db := db;
    }

    /** The checks of rename_or_move_folder, which write nothing. */
    method CheckMove(caller: Caller, f: Id, newParent: Option<Id>) returns (result: MoveResult)
      ensures MoveAnswered(db, caller, f, newParent, result)
      ensures result.Moved? <==> MoveAllowed(db, caller, f, newParent)
    {
      var refused := Refusal(db, caller, f, None);
      if refused.Some? {
        return refused.value;
      }
      if newParent == Some(f) {
        NeverBelowItself(db.folders, f);
        return Conflict;
      }
      if newParent.Some? {
        var target := newParent.value;
        refused := Refusal(db, caller, target, Some(db.folders[f].workspace));
        if refused.Some? {
          return refused.value;
        }
        var below := IsAncestorOrSelf(db.folders, f, target);
        if below {
          return Conflict;
        }
      }
      return Moved;
    }

    /** The write, which the row it updates must have outlived. */
    method WriteMove(f: Id, newParent: Option<Id>)
      requires f in db.folders
      modifies this
      ensures db == old(db).(folders := Hung(old(db.folders), f, newParent))
    {
      db := db.(folders := db.folders[f := db.folders[f].(parent := newParent)]);
    }

    /** rename_or_move_folder with a new parent, with no other move between its check and its write. */
    method MoveFolder(caller: Caller, f: Id, newParent: Option<Id>) returns (result: MoveResult)
      requires KeysOk(db)
      modifies this
      ensures result.Moved? ==> f in old(db.folders)
      ensures result.Moved? ==> db == old(db).(folders := Hung(old(db.folders), f, newParent))
      ensures !result.Moved? ==> db == old(db)
      ensures MoveAnswered(old(db), caller, f, newParent, result)
      ensures result.Moved? <==> MoveAllowed(old(db), caller, f, newParent)
      ensures KeysOk(db)
      ensures Homogeneous(old(db)) ==> Homogeneous(db)
      ensures KeepsRoots(old(db.folders), db.folders)
    {
      result := CheckMove(caller, f, newParent);
      if result.Moved? {
        ghost var clear: nat := 0;
        if newParent.Some? {
          clear :| ClearAbove(db.folders, f, newParent, clear);
        }
        MovedKeys(db, f, newParent);
        MovedHomogeneous(db, f, newParent);
        MovedRooted(db.folders, f, newParent, clear);
        WriteMove(f, newParent);
      }
    }

    /** DELETE of one folder row with the constraint triggers it fires. Each deleted row (id, org)
        deletes the folders and clears the documents that reference exactly that pair; the triggers
        fire in any order. */
    method DeleteFolder(root: Id)
      requires KeysOk(db)
      modifies this
      ensures db == AfterDelete(old(db), root)
    {
      hide KeysOk, Unfiled, Cleared, Descendant, Doomed;
      if root !in db.folders {
        NothingDoomed(db, root);
        return;
      }
      ghost var was := db;
      var org := db.folders[root].org;
      db := db.(folders := db.folders - {root});
      var pending: set<Id> := {root};
      ghost var removed := {root};
      Started(was, root);
      while pending != {}
        invariant Underway(was, root, org, removed, pending)
        invariant db == Partial(was, removed, pending)
        decreases was.folders.Keys - removed, pending
      {
        var id :| id in pending;
        var children := Children(db.folders, id, org);
        Fired(was, root, org, removed, pending, id);
        db := db.(folders := db.folders - children, documents := Cleared(db.documents, id, org));
        removed := removed + children;
        pending := pending - {id} + children;
      }
      Closed(was, root, org, removed);
    }

    /** The same statement under a bare SET NULL, which would also clear org_id: the first trigger that
        meets a document violates its NOT NULL, and the statement is rolled back. */
    method DeleteFolderBareSetNull(root: Id) returns (aborted: bool)
      requires KeysOk(db)
      modifies this
      ensures aborted <==> !NoneFiled(old(db.documents), Doomed(old(db.folders), root))
      ensures db == if aborted then old(db) else AfterDelete(old(db), root)
    {
      hide KeysOk, Unfiled, Cleared, Descendant, Doomed;
      if root !in db.folders {
        NothingDoomed(db, root);
        assert Doomed(db.folders, root) == {} by { NoneDoomed(db.folders, root); }
        return false;
      }
      var was := db;
      var org := db.folders[root].org;
      db := db.(folders := db.folders - {root});
      var pending: set<Id> := {root};
      ghost var removed := {root};
      Started(was, root);
      while pending != {}
        invariant Underway(was, root, org, removed, pending)
        invariant db == Partial(was, removed, pending)
        invariant NoneFiled(was.documents, removed - pending)
        decreases was.folders.Keys - removed, pending
      {
        var id :| id in pending;
        var children := Children(db.folders, id, org);
        forall d | d in was.documents
          ensures db.documents[d] == was.documents[d]
          ensures was.documents[d].folder == Some(id) ==> was.documents[d].org == org
        {
          TriggerMeets(was, removed - pending, id, org, d);
        }
        if d :| d in db.documents && db.documents[d].folder == Some(id) && db.documents[d].org == org {
          InDoomed(was, root, org, removed, pending, id);
          assert was.documents[d].folder.value in Doomed(was.folders, root);
          db := was;
          return true;
        }
        NothingToClear(db.documents, id, org);
        Fired(was, root, org, removed, pending, id);
        assert removed + children - (pending - {id} + children) <= removed - pending + {id};
        db := db.(folders := db.folders - children);
        removed := removed + children;
        pending := pending - {id} + children;
      }
      Closed(was, root, org, removed);
      assert removed - {} == removed;
      return false;
    }
  }

  lemma NothingToClear(documents: map<Id, Document>, id: Id, org: Org)
    requires forall d :: d in documents ==> !(documents[d].folder == Some(id) && documents[d].org == org)
    ensures Cleared(documents, id, org) == documents
  {
  }

  ghost predicate NoneFiled(documents: map<Id, Document>, folders: set<Id>) {
    forall d :: d in documents ==> !(documents[d].folder.Some? && documents[d].folder.value in folders)
  }

  /** The trigger of one row meets a document exactly when one was filed in that row all along. */
  lemma TriggerMeets(was: Db, gone: set<Id>, id: Id, org: Org, d: Id)
    requires KeysOk(was) && id in was.folders && was.folders[id].org == org && NoneFiled(was.documents, gone)
    requires d in was.documents
    ensures Unfiled(was.documents, gone)[d] == was.documents[d]
    ensures was.documents[d].folder == Some(id) ==> was.documents[d].org == org
  {
    assert DocumentOk(was, was.documents[d]);
  }

  /** The folders whose composite key references the row (id, org). */
  function Children(folders: map<Id, Folder>, id: Id, org: Org): set<Id> {
    set c | c in folders && folders[c].parent == Some(id) && folders[c].org == org
  }

  /** SET NULL (folder_id) on the documents that reference the deleted pair. */
  function Cleared(documents: map<Id, Document>, id: Id, org: Org): (r: map<Id, Document>)
    ensures r.Keys == documents.Keys
  {
    map d | d in documents ::
      if documents[d].folder == Some(id) && documents[d].org == org then documents[d].(folder := None) else documents[d]
  }

  /** The state while the triggers of `pending` have yet to fire. */
  ghost function Partial(was: Db, removed: set<Id>, pending: set<Id>): Db {
    was.(folders := was.folders - removed, documents := Unfiled(was.documents, removed - pending))
  }

  ghost predicate Underway(was: Db, root: Id, org: Org, removed: set<Id>, pending: set<Id>) {
    && pending <= removed <= was.folders.Keys && root in removed
    && (forall r :: r in removed ==> Descendant(was.folders, root, r) && was.folders[r].org == org)
    && ChildrenIn(was.folders, removed - pending, removed)
  }

  lemma Started(was: Db, root: Id)
    requires root in was.folders
    ensures Underway(was, root, was.folders[root].org, {root}, {root})
    ensures Partial(was, {root}, {root}) == was.(folders := was.folders - {root})
  {
    assert Leads(was.folders, root, root, [root]);
    assert Unfiled(was.documents, {root} - {root}) == was.documents;
  }

  /** One row's triggers take the partial state to the next one. */
  lemma Fired(was: Db, root: Id, org: Org, removed: set<Id>, pending: set<Id>, id: Id)
    requires KeysOk(was) && Underway(was, root, org, removed, pending) && id in pending
    ensures var now := Partial(was, removed, pending);
      var kids := Children(now.folders, id, org);
      && Underway(was, root, org, removed + kids, pending - {id} + kids)
      && Partial(was, removed + kids, pending - {id} + kids)
         == now.(folders := now.folders - kids, documents := Cleared(now.documents, id, org))
      && kids !! removed
  {
    var now := Partial(was, removed, pending);
    var kids := Children(now.folders, id, org);
    FiredFolders(was, root, org, removed, pending, id);
    assert removed + kids - (pending - {id} + kids) == removed - pending + {id};
    ClearedOnce(was, removed - pending, id, org);
    assert was.folders - (removed + kids) == now.folders - kids;
  }

  lemma FiredFolders(was: Db, root: Id, org: Org, removed: set<Id>, pending: set<Id>, id: Id)
    requires KeysOk(was) && Underway(was, root, org, removed, pending) && id in pending
    ensures var kids := Children(was.folders - removed, id, org);
      Underway(was, root, org, removed + kids, pending - {id} + kids)
  {
    hide Descendant;
    var kids := Children(was.folders - removed, id, org);
    forall c | c in kids ensures Descendant(was.folders, root, c) {
      ChildOfDescendant(was.folders, root, id, c);
    }
    forall c | c in was.folders && was.folders[c].parent == Some(id) ensures c in removed + kids {
      assert FolderOk(was, was.folders[c]);
    }
  }

  lemma ClearedOnce(was: Db, gone: set<Id>, id: Id, org: Org)
    requires KeysOk(was) && id in was.folders && was.folders[id].org == org
    ensures Cleared(Unfiled(was.documents, gone), id, org) == Unfiled(was.documents, gone + {id})
  {
    assert forall d :: d in was.documents ==> DocumentOk(was, was.documents[d]);
  }

  lemma Closed(was: Db, root: Id, org: Org, removed: set<Id>)
    requires Underway(was, root, org, removed, {})
    ensures Partial(was, removed, {}) == AfterDelete(was, root) && removed == Doomed(was.folders, root)
  {
    assert removed - {} == removed;
    forall f | f in was.folders && Descendant(was.folders, root, f) ensures f in removed {
      var path :| Leads(was.folders, root, f, path);
      ChainInside(was.folders, path, removed);
    }
    assert removed == Doomed(was.folders, root);
  }

  lemma InDoomed(was: Db, root: Id, org: Org, removed: set<Id>, pending: set<Id>, id: Id)
    requires Underway(was, root, org, removed, pending) && id in pending
    ensures id in Doomed(was.folders, root)
  {
  }

  lemma NoneDoomed(folders: map<Id, Folder>, root: Id)
    requires root !in folders
    ensures Doomed(folders, root) == {}
  {
  }

  lemma NothingDoomed(db: Db, root: Id)
    requires root !in db.folders
    ensures AfterDelete(db, root) == db
  {
    assert Doomed(db.folders, root) == {};
    assert Unfiled(db.documents, {}) == db.documents;
  }

  /** What a delete does and does not do, from any state the keys allow: exactly the folder and its
      descendants go, all of one org; no document goes, and nothing of a document changes but the
      reference to a folder that went; every composite key holds again. */
  lemma DeleteIsContained(db: Db, root: Id)
    requires KeysOk(db)
    ensures var after := AfterDelete(db, root);
      KeysOk(after)
      && after.folders.Keys == db.folders.Keys - Doomed(db.folders, root)
      && (forall f :: f in after.folders ==> after.folders[f] == db.folders[f])
      && after.documents.Keys == db.documents.Keys
      && (forall d :: d in db.documents ==>
            after.documents[d] == if db.documents[d].folder.Some?
                                     && Descendant(db.folders, root, db.documents[d].folder.value)
                                  then db.documents[d].(folder := None) else db.documents[d])
    ensures forall f :: f in Doomed(db.folders, root) ==>
              root in db.folders && db.folders[f].org == db.folders[root].org
    ensures forall d :: d in db.documents && root in db.folders && db.documents[d].org != db.folders[root].org
              ==> AfterDelete(db, root).documents[d] == db.documents[d]
  {
    var gone, after := Doomed(db.folders, root), AfterDelete(db, root);
    forall f | f in gone ensures root in db.folders && db.folders[f].org == db.folders[root].org {
      var path :| Leads(db.folders, root, f, path);
      ChainOneOrg(db, path);
    }
    forall f | f in after.folders ensures FolderOk(after, after.folders[f]) {
      assert FolderOk(db, db.folders[f]);
      var parent := db.folders[f].parent;
      if parent.Some? && parent.value in gone {
        ChildOfDescendant(db.folders, root, parent.value, f);
      }
    }
    forall d | d in db.documents
      ensures DocumentOk(after, after.documents[d])
      ensures root in db.folders && db.documents[d].org != db.folders[root].org ==>
                after.documents[d] == db.documents[d]
    {
      assert DocumentOk(db, db.documents[d]);
    }
  }

  // ---------------------------------------------------------------- preflight and upgrade

  /** A row of a referencing table: its id, its org, and the reference (null allowed). */
  datatype Row = Row(id: Id, org: Org, reference: Option<Id>)

  predicate RowOk(r: Row, owners: map<Id, Org>) { r.reference.Some? ==> Paired(owners, r.reference.value, r.org) }

  predicate TableOk(rows: seq<Row>, owners: map<Id, Org>) { forall i :: 0 <= i < |rows| ==> RowOk(rows[i], owners) }

  const SHOWN := 20

  method Preflight(rows: seq<Row>, owners: map<Id, Org>) returns (bad: seq<Id>)
    ensures bad == [] <==> TableOk(rows, owners)
    ensures |bad| <= 20
    ensures forall id :: id in bad ==> exists i :: 0 <= i < |rows| && rows[i].id == id && !RowOk(rows[i], owners)
    ensures |bad| < 20 ==> forall i :: 0 <= i < |rows| && !RowOk(rows[i], owners) ==> rows[i].id in bad
  {
    bad := [];
    for n := 0 to |rows|
      invariant |bad| <= SHOWN
      invariant bad == [] ==> forall i :: 0 <= i < n ==> RowOk(rows[i], owners)
      invariant bad != [] ==> exists i :: 0 <= i < n && !RowOk(rows[i], owners)
      invariant forall id :: id in bad ==> exists i :: 0 <= i < n && rows[i].id == id && !RowOk(rows[i], owners)
      invariant |bad| < SHOWN ==> forall i :: 0 <= i < n && !RowOk(rows[i], owners) ==> rows[i].id in bad
    {
      if |bad| < SHOWN && !RowOk(rows[n], owners) {
        bad := bad + [rows[n].id];
      }
    }
  }

  /** One foreign key to add: the table's rows and the referenced table's owners. */
  datatype NewKey = NewKey(rows: seq<Row>, owners: map<Id, Org>)

  datatype UpgradeResult = Upgraded | CrossTenantRows(table: nat, bad: seq<Id>) | ConstraintViolation

  /** All preflights first, then all constraints, each of which validates its rows again: the upgrade
      adds every key or names offending rows of the first table that has any. */
  method Upgrade(keys: seq<NewKey>) returns (result: UpgradeResult)
    ensures result.Upgraded? <==> forall k :: 0 <= k < |keys| ==> TableOk(keys[k].rows, keys[k].owners)
    ensures !result.ConstraintViolation?
    ensures result.CrossTenantRows? ==>
              result.table < |keys| && !TableOk(keys[result.table].rows, keys[result.table].owners) && result.bad != []
    ensures result.CrossTenantRows? ==>
              forall k :: 0 <= k < result.table ==> TableOk(keys[k].rows, keys[k].owners)
  {
    for k := 0 to |keys|
      invariant forall j :: 0 <= j < k ==> TableOk(keys[j].rows, keys[j].owners)
    {
      var bad := Preflight(keys[k].rows, keys[k].owners);
      if bad != [] {
        return CrossTenantRows(k, bad);
      }
    }
    for k := 0 to |keys| {
      if !TableOk(keys[k].rows, keys[k].owners) {
        return ConstraintViolation;
      }
    }
    result := Upgraded;
  }

  // ---------------------------------------------------------------- the keys as tables

  /** A referencing column: per row its org and its reference. */
  type Column = map<Id, (Org, Option<Id>)>

  /** The rows list the column: each of its entries, and nothing else. */
  ghost predicate Lists(rows: seq<Row>, column: Column) {
    && (forall i :: 0 <= i < |rows| ==> rows[i].id in column && column[rows[i].id] == (rows[i].org, rows[i].reference))
    && (forall id :: id in column ==> exists i :: 0 <= i < |rows| && rows[i].id == id)
  }

  ghost predicate ColumnOk(column: Column, owners: map<Id, Org>) {
    forall id :: id in column && column[id].1.Some? ==> Paired(owners, column[id].1.value, column[id].0)
  }

  lemma ListedOk(rows: seq<Row>, column: Column, owners: map<Id, Org>)
    requires Lists(rows, column)
    ensures TableOk(rows, owners) <==> ColumnOk(column, owners)
  {
    if ColumnOk(column, owners) {
      assert forall i :: 0 <= i < |rows| ==> rows[i].id in column;
    }
    if TableOk(rows, owners) {
      forall id | id in column && column[id].1.Some? ensures Paired(owners, column[id].1.value, column[id].0) {
        var i :| 0 <= i < |rows| && rows[i].id == id;
        assert RowOk(rows[i], owners);
      }
    }
  }

  /** The columns paired by the two migrations, with the owners of what they refer to. */
  ghost function PairedColumns(db: Db): (r: seq<(Column, map<Id, Org>)>)
    ensures |r| == 8
  {
    var folderOwners := map f | f in db.folders :: db.folders[f].org;
    [(map d | d in db.documents :: (db.documents[d].org, Some(db.documents[d].workspace)), db.workspaces),
     (map c | c in db.chats :: (db.chats[c].org, Some(db.chats[c].workspace)), db.workspaces),
     (map f | f in db.folders :: (db.folders[f].org, Some(db.folders[f].workspace)), db.workspaces),
     (map d | d in db.documents :: (db.documents[d].org, Some(db.documents[d].createdBy)), db.users),
     (map c | c in db.chats :: (db.chats[c].org, Some(db.chats[c].user)), db.users),
     (map f | f in db.folders :: (db.folders[f].org, Some(db.folders[f].createdBy)), db.users),
     (map d | d in db.documents :: (db.documents[d].org, db.documents[d].folder), folderOwners),
     (map f | f in db.folders :: (db.folders[f].org, db.folders[f].parent), folderOwners)]
  }

  /** The keys can be added to a database, each table listed in any order, exactly when no row of it refers
      to another tenant. */
  lemma KeysAreTables(db: Db, keys: seq<NewKey>)
    requires |keys| == 8
    requires forall k :: 0 <= k < 8 ==> Lists(keys[k].rows, PairedColumns(db)[k].0)
                                        && keys[k].owners == PairedColumns(db)[k].1
    ensures (forall k :: 0 <= k < 8 ==> TableOk(keys[k].rows, keys[k].owners)) <==> KeysOk(db)
  {
    hide Lists, ColumnOk, TableOk, KeysOk, PairedColumns;
    forall k | 0 <= k < 8
      ensures TableOk(keys[k].rows, keys[k].owners) <==> ColumnOk(PairedColumns(db)[k].0, PairedColumns(db)[k].1)
    {
      ListedOk(keys[k].rows, PairedColumns(db)[k].0, PairedColumns(db)[k].1);
    }
    ColumnsAreKeys(db);
  }

  lemma ColumnsAreKeys(db: Db)
    ensures (forall k :: 0 <= k < 8 ==> ColumnOk(PairedColumns(db)[k].0, PairedColumns(db)[k].1)) <==> KeysOk(db)
  {
    hide ColumnOk, PairedColumns, KeysOk;
    if KeysOk(db) {
      KeysToColumns(db);
    }
    if forall k :: 0 <= k < 8 ==> ColumnOk(PairedColumns(db)[k].0, PairedColumns(db)[k].1) {
      ColumnsToKeys(db);
    }
  }

  lemma KeysToColumns(db: Db)
    requires KeysOk(db)
    ensures forall k :: 0 <= k < 8 ==> ColumnOk(PairedColumns(db)[k].0, PairedColumns(db)[k].1)
  {
    var r := PairedColumns(db);
    assert forall d :: d in db.documents ==> DocumentOk(db, db.documents[d]);
    assert forall f :: f in db.folders ==> FolderOk(db, db.folders[f]);
    assert forall c :: c in db.chats ==> ChatOk(db, db.chats[c]);
    forall k | 0 <= k < 8 ensures ColumnOk(r[k].0, r[k].1) {
      assert k == 0 || k == 1 || k == 2 || k == 3 || k == 4 || k == 5 || k == 6 || k == 7;
    }
  }

  lemma ColumnsToKeys(db: Db)
    requires forall k :: 0 <= k < 8 ==> ColumnOk(PairedColumns(db)[k].0, PairedColumns(db)[k].1)
    ensures KeysOk(db)
  {
    var r := PairedColumns(db);
    assert ColumnOk(r[0].0, r[0].1) && ColumnOk(r[1].0, r[1].1) && ColumnOk(r[2].0, r[2].1)
        && ColumnOk(r[3].0, r[3].1) && ColumnOk(r[4].0, r[4].1) && ColumnOk(r[5].0, r[5].1)
        && ColumnOk(r[6].0, r[6].1) && ColumnOk(r[7].0, r[7].1);
    forall d | d in db.documents ensures DocumentOk(db, db.documents[d]) {
      assert d in r[0].0 && d in r[3].0 && d in r[6].0;
    }
    forall f | f in db.folders ensures FolderOk(db, db.folders[f]) {
      assert f in r[2].0 && f in r[5].0 && f in r[7].0;
    }
    forall c | c in db.chats ensures ChatOk(db, db.chats[c]) {
      assert c in r[1].0 && c in r[4].0;
    }
  }
}
