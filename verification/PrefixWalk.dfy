/** The operator's view of a whole prefix: Storage lists one folder at a time, a
    hundred entries to a page, and a worklist walks the folders. */
module PrefixWalk {

  /** An object's full name, as its segments. */
  type Path = seq<string>

  /** One entry of a folder's listing. A folder has no id. */
  datatype Entry = Entry(name: string, isFolder: bool)

  const LIST_PAGE_SIZE := 100
  const DELETE_BATCH_SIZE := 100

  /** What is directly under a folder: its objects, and the first segment below
      it of every deeper object. */
  function Children(names: set<Path>, folder: Path): set<Entry> {
    set n | n in names && |folder| < |n| && folder == n[..|folder|] :: Entry(n[|folder|], |n| > |folder| + 1)
  }

  /** How Storage orders a listing: each entry once. */
  ghost predicate Lists(names: set<Path>, listing: Path -> seq<Entry>) {
    forall folder :: IsListing(names, folder, listing(folder))
  }

  ghost predicate IsListing(names: set<Path>, folder: Path, entries: seq<Entry>) {
    && (forall e :: e in entries <==> e in Children(names, folder))
    && (forall i, j :: 0 <= i < j < |entries| ==> entries[i] != entries[j])
  }

  ghost function InSomeOrder(entries: set<Entry>): (order: seq<Entry>)
    ensures (forall e :: e in order <==> e in entries) && forall i, j :: 0 <= i < j < |order| ==> order[i] != order[j]
  {
    if entries == {} then []
    else
      var e :| e in entries;
      InSomeOrder(entries - {e}) + [e]
  }

  /** Whatever the names, there is such a listing. */
  lemma SomeListing(names: set<Path>)
    ensures exists listing: Path -> seq<Entry> :: Lists(names, listing)
  {
    var listing: Path -> seq<Entry> := folder => InSomeOrder(Children(names, folder));
    assert Lists(names, listing);
  }

  /** A segment the walk follows; no key has another. */
  predicate Walked(segment: string) { segment != "" && segment != "." && segment != ".." && '/' !in segment }

  /** Below the prefix, every segment is one the walk follows. */
  predicate Reachable(root: Path, n: Path) {
    |root| <= |n| && root == n[..|root|] && forall k :: |root| <= k < |n| ==> Walked(n[k])
  }

  function Objects(names: set<Path>, root: Path): set<Path> {
    set n | n in names && |root| < |n| && Reachable(root, n)
  }

  /** The prefix itself and every folder the walk comes to. */
  function Folders(names: set<Path>, root: Path): set<Path> {
    {root} + set n, k | n in names && |root| < k < |n| && Reachable(root, n[..k]) :: n[..k]
  }

  predicate Distinct<T(==)>(s: seq<T>) { forall i, j :: 0 <= i < j < |s| ==> s[i] != s[j] }

  /** `_listing`: page by page, until a page is short. */
  method Listing(listing: Path -> seq<Entry>, folder: Path) returns (entries: seq<Entry>)
    ensures entries == listing(folder)
  {
    var all := listing(folder);
    entries := [];
    var offset := 0;
    while true
      invariant 0 <= offset <= |all| && entries == all[..offset]
      decreases |all| - offset
    {
      var page := all[offset..if offset + LIST_PAGE_SIZE <= |all| then offset + LIST_PAGE_SIZE else |all|];
      entries := entries + page;
      if |page| < LIST_PAGE_SIZE { return; }
      offset := offset + LIST_PAGE_SIZE;
    }
  }

  // --- the worklist ---

  /** The objects and the folders a listing gives, those it leaves out gone. */
  function FoundIn(folder: Path, entries: seq<Entry>, isFolder: bool): (s: seq<Path>)
  {
    if entries == [] then []
    else
      var e := entries[|entries| - 1];
      FoundIn(folder, entries[..|entries| - 1], isFolder)
      + if Walked(e.name) && e.isFolder == isFolder then [folder + [e.name]] else []
  }

  lemma AppendDistinct<T>(s: seq<T>, x: T)
    requires Distinct(s) && x !in s
    ensures Distinct(s + [x])
  {
  }

  ghost predicate IsFound(folder: Path, entries: seq<Entry>, isFolder: bool, n: Path) {
    exists e :: e in entries && Walked(e.name) && e.isFolder == isFolder && n == folder + [e.name]
  }

  /** An entry not among the others is found under a new name. */
  lemma NameIsNew(folder: Path, front: seq<Entry>, e: Entry, isFolder: bool)
    requires e !in front && e.isFolder == isFolder
    ensures !IsFound(folder, front, isFolder, folder + [e.name])
  {
    forall x | x in front && x.isFolder == isFolder ensures folder + [x.name] != folder + [e.name] {
      assert (folder + [x.name])[|folder|] == x.name && (folder + [e.name])[|folder|] == e.name;
    }
  }

  lemma {:induction false} FoundInIs(folder: Path, entries: seq<Entry>, isFolder: bool)
    requires Distinct(entries)
    ensures Distinct(FoundIn(folder, entries, isFolder))
    ensures forall n :: n in FoundIn(folder, entries, isFolder) <==> IsFound(folder, entries, isFolder, n)
  {
    if entries != [] {
      var front, e := entries[..|entries| - 1], entries[|entries| - 1];
      FoundInIs(folder, front, isFolder);
      var s := FoundIn(folder, front, isFolder);
      assert forall x :: x in entries <==> x in front || x == e;
      forall n ensures IsFound(folder, entries, isFolder, n)
        <==> IsFound(folder, front, isFolder, n) || (Walked(e.name) && e.isFolder == isFolder && n == folder + [e.name])
      {
      }
      if Walked(e.name) && e.isFolder == isFolder {
        NameIsNew(folder, front, e, isFolder);
        AppendDistinct(s, folder + [e.name]);
      }
    }
  }

  predicate Under(folder: Path, n: Path) { |n| == |folder| + 1 && folder == n[..|folder|] }

  lemma FoundIsObject(names: set<Path>, root: Path, folder: Path, entries: seq<Entry>, n: Path)
    requires IsListing(names, folder, entries) && Reachable(root, folder)
    requires IsFound(folder, entries, false, n)
    ensures n in Objects(names, root) && Under(folder, n)
  {
    var e :| e in entries && Walked(e.name) && e.isFolder == false && n == folder + [e.name];
    var m :| m in names && |folder| < |m| && folder == m[..|folder|] && e == Entry(m[|folder|], |m| > |folder| + 1);
    assert m == n;
    assert n[..|root|] == folder[..|root|];
  }

  lemma ObjectIsFound(names: set<Path>, root: Path, folder: Path, entries: seq<Entry>, n: Path)
    requires IsListing(names, folder, entries) && Reachable(root, folder)
    requires n in Objects(names, root) && Under(folder, n)
    ensures IsFound(folder, entries, false, n)
  {
    assert Entry(n[|folder|], false) in Children(names, folder);
    assert n == folder + [n[|folder|]];
  }

  lemma FoundIsFolder(names: set<Path>, root: Path, folder: Path, entries: seq<Entry>, n: Path)
    requires IsListing(names, folder, entries) && Reachable(root, folder)
    requires IsFound(folder, entries, true, n)
    ensures n in Folders(names, root) && Under(folder, n)
  {
    var e :| e in entries && Walked(e.name) && e.isFolder == true && n == folder + [e.name];
    var m :| m in names && |folder| < |m| && folder == m[..|folder|] && e == Entry(m[|folder|], |m| > |folder| + 1);
    assert m[..|folder| + 1] == n;
    assert n[..|root|] == folder[..|root|];
  }

  lemma FolderIsFound(names: set<Path>, root: Path, folder: Path, entries: seq<Entry>, n: Path)
    requires IsListing(names, folder, entries) && Reachable(root, folder)
    requires n in Folders(names, root) && Under(folder, n)
    ensures IsFound(folder, entries, true, n)
  {
    var m, k :| m in names && |root| < k < |m| && Reachable(root, m[..k]) && n == m[..k];
    assert m[..|folder|] == folder && m[|folder|] == n[|folder|];
    assert Entry(m[|folder|], true) in Children(names, folder);
    assert n == folder + [n[|folder|]];
  }

  /** What one folder contributes, in terms of the bucket. */
  lemma FolderGives(names: set<Path>, root: Path, folder: Path, entries: seq<Entry>)
    requires IsListing(names, folder, entries) && Reachable(root, folder)
    ensures Distinct(FoundIn(folder, entries, false)) && Distinct(FoundIn(folder, entries, true))
    ensures forall n :: n in FoundIn(folder, entries, false) <==> n in Objects(names, root) && Under(folder, n)
    ensures forall n :: n in FoundIn(folder, entries, true) <==> n in Folders(names, root) && Under(folder, n)
  {
    FoundInIs(folder, entries, false);
    FoundInIs(folder, entries, true);
    forall n ensures IsFound(folder, entries, false, n) <==> n in Objects(names, root) && Under(folder, n) {
      if IsFound(folder, entries, false, n) { FoundIsObject(names, root, folder, entries, n); }
      if n in Objects(names, root) && Under(folder, n) { ObjectIsFound(names, root, folder, entries, n); }
    }
    forall n ensures IsFound(folder, entries, true, n) <==> n in Folders(names, root) && Under(folder, n) {
      if IsFound(folder, entries, true, n) { FoundIsFolder(names, root, folder, entries, n); }
      if n in Folders(names, root) && Under(folder, n) { FolderIsFound(names, root, folder, entries, n); }
    }
  }

  function Parent(n: Path): Path
    requires n != []
  {
    n[..|n| - 1]
  }

  lemma ParentIsAFolder(names: set<Path>, root: Path, n: Path)
    requires n in Objects(names, root) || (n in Folders(names, root) && n != root)
    ensures |n| > |root| && Parent(n) in Folders(names, root)
  {
    var m, k := n, |n|;
    if n !in Objects(names, root) {
      m, k :| m in names && |root| < k < |m| && Reachable(root, m[..k]) && n == m[..k];
    }
    var parent := Parent(n);
    assert parent == m[..|n| - 1];
    if |parent| == |root| {
      assert parent == n[..|root|];
    } else {
      assert n[..|root|] == parent[..|root|];
      assert Reachable(root, m[..|n| - 1]);
    }
  }

  /** The walk's state: which folders are done, which wait, what is found. */
  ghost predicate Walking(names: set<Path>, root: Path, pending: seq<Path>, done: set<Path>, found: seq<Path>) {
    && Distinct(pending) && Distinct(found)
    && done <= Folders(names, root)
    && (forall f :: f in pending ==> f in Folders(names, root) && f !in done)
    && (root in pending || root in done)
    && (forall f :: f in Folders(names, root) && f != root ==> (Parent(f) in done <==> f in pending || f in done))
    && (forall n :: n in found <==> n in Objects(names, root) && Parent(n) in done)
  }

  lemma {:induction false} AllDone(names: set<Path>, root: Path, done: set<Path>, found: seq<Path>, f: Path)
    requires Walking(names, root, [], done, found) && f in Folders(names, root)
    ensures f in done
    decreases |f|
  {
    if f != root {
      ParentIsAFolder(names, root, f);
      AllDone(names, root, done, found, Parent(f));
    }
  }

  lemma FolderIsReachable(names: set<Path>, root: Path, f: Path)
    requires f in Folders(names, root)
    ensures Reachable(root, f)
  {
  }

  lemma ConcatDistinct<T>(a: seq<T>, b: seq<T>)
    requires Distinct(a) && Distinct(b) && forall x :: x in a ==> x !in b
    ensures Distinct(a + b)
  {
    forall i, j | 0 <= i < j < |a + b| ensures (a + b)[i] != (a + b)[j] {
      if i < |a| <= j { assert (a + b)[i] in a && (a + b)[j] in b; }
    }
  }

  lemma WithoutLast<T>(s: seq<T>, x: T)
    requires Distinct(s + [x])
    ensures Distinct(s) && x !in s
  {
    var all := s + [x];
    assert all[|s|] == x;
    forall i, j | 0 <= i < j < |s| ensures s[i] != s[j] {
      assert all[i] == s[i] && all[j] == s[j];
    }
    forall i | 0 <= i < |s| ensures s[i] != x {
      assert all[i] == s[i];
    }
  }

  lemma UnderIsChild(names: set<Path>, root: Path, folder: Path, n: Path)
    requires n in Objects(names, root) || (n in Folders(names, root) && n != root)
    ensures Under(folder, n) <==> Parent(n) == folder
  {
    ParentIsAFolder(names, root, n);
  }

  /** Taking the last waiting folder and listing it keeps the state. */
  lemma WalkOne(names: set<Path>, root: Path, pending: seq<Path>, done: set<Path>, found: seq<Path>,
                folder: Path, entries: seq<Entry>)
    requires Walking(names, root, pending + [folder], done, found) && IsListing(names, folder, entries)
    ensures folder in Folders(names, root) && folder !in done
    ensures Walking(names, root, pending + FoundIn(folder, entries, true), done + {folder},
                    found + FoundIn(folder, entries, false))
  {
    assert folder in pending + [folder];
    assert forall f :: f in pending + [folder] <==> f in pending || f == folder;
    WithoutLast(pending, folder);
    FolderIsReachable(names, root, folder);
    FolderGives(names, root, folder, entries);
    var folders, objects := FoundIn(folder, entries, true), FoundIn(folder, entries, false);
    forall n | n in Objects(names, root) || (n in Folders(names, root) && n != root)
      ensures Under(folder, n) <==> Parent(n) == folder
    {
      UnderIsChild(names, root, folder, n);
    }
    assert forall f :: f in folders <==> f in Folders(names, root) && f != root && Parent(f) == folder by {
      FolderIsLonger(names, root, folder);
    }
    ConcatDistinct(pending, folders);
    ConcatDistinct(found, objects);
  }

  lemma FolderIsLonger(names: set<Path>, root: Path, folder: Path)
    requires folder in Folders(names, root)
    ensures |folder| >= |root|
  {
  }

  /** One folder's entries, told apart: objects found, folders to walk. */
  method TakeEntries(folder: Path, entries: seq<Entry>, waiting: seq<Path>, were: seq<Path>)
    returns (pending: seq<Path>, found: seq<Path>)
    ensures pending == waiting + FoundIn(folder, entries, true)
    ensures found == were + FoundIn(folder, entries, false)
  {
    pending, found := waiting, were;
    var i := 0;
    while i < |entries|
      invariant 0 <= i <= |entries|
      invariant pending == waiting + FoundIn(folder, entries[..i], true)
      invariant found == were + FoundIn(folder, entries[..i], false)
    {
      var item := entries[i];
      assert entries[..i + 1][..i] == entries[..i] && entries[..i + 1][i] == item;
      if Walked(item.name) {
        var full := folder + [item.name];
        if item.isFolder { pending := pending + [full]; } else { found := found + [full]; }
      }
      i := i + 1;
    }
    assert entries[..i] == entries;
  }

  /** `_walk`: every object under the prefix once and only once, at any depth,
      and it ends. */
  method Walk(ghost names: set<Path>, listing: Path -> seq<Entry>, root: Path) returns (found: seq<Path>)
    requires Lists(names, listing)
    ensures Distinct(found) && forall n :: n in found <==> n in Objects(names, root)
  {
    found := [];
    var pending := [root];
    ghost var done: set<Path> := {};
    while pending != []
      invariant Walking(names, root, pending, done, found)
      decreases Folders(names, root) - done
    {
      var folder := pending[|pending| - 1];
      var rest := pending[..|pending| - 1];
      assert pending == rest + [folder];
      var entries := Listing(listing, folder);
      assert IsListing(names, folder, entries);
      WalkOne(names, root, rest, done, found, folder, entries);
      pending, found := TakeEntries(folder, entries, rest, found);
      done := done + {folder};
    }
    forall n | n in Objects(names, root) ensures n in found {
      ParentIsAFolder(names, root, n);
      AllDone(names, root, done, found, Parent(n));
    }
  }

  // --- erasing ---

  class Bucket {
    var names: set<Path>

    constructor (names: set<Path>) ensures this.names == names { this.names := names; }

    /** One batch's DELETE, which Storage carries out or refuses whole. An
        answer may be lost after the objects are. */
    method Remove(batch: seq<Path>, applied: bool, answered: bool) returns (ok: bool)
      modifies this
      ensures ok == (applied && answered)
      ensures names == if applied then old(names) - (set n | n in batch) else old(names)
    {
      if applied { names := names - set n | n in batch; }
      ok := applied && answered;
    }

    /** `delete_everything`: the names the walk found, a hundred at a time. It
        ends with the prefix empty, or raises at the first batch that failed, whose
        names may be gone all the same; nothing outside the prefix is touched
        either way. */
    method DeleteEverything(listing: Path -> seq<Entry>, root: Path, applied: nat -> bool, answered: nat -> bool)
      returns (removed: Removal)
      requires Lists(names, listing)
      modifies this
      ensures forall n :: n !in Objects(old(names), root) ==> (n in names <==> n in old(names))
      ensures names <= old(names)
      ensures removed.All? ==> Objects(names, root) == {}
      ensures removed.All? ==> removed.count == |Objects(old(names), root)|
      ensures removed.Raised? <==> exists k: nat ::
        && k * DELETE_BATCH_SIZE < |Objects(old(names), root)|
        && !(applied(k) && answered(k))
    {
      var found := Walk(names, listing, root);
      ghost var was := names;
      ghost var all := Objects(was, root);
      CountDistinct(found, all);
      var start, k := 0, 0;
      ghost var done := 0;
      while start < |found|
        invariant start == k * DELETE_BATCH_SIZE
        invariant done == if start < |found| then start else |found|
        invariant names == was - set n | n in found[..done]
        invariant forall j: nat :: j < k ==> applied(j) && answered(j)
        decreases |found| - start
      {
        var end := if start + DELETE_BATCH_SIZE <= |found| then start + DELETE_BATCH_SIZE else |found|;
        assert found[..end] == found[..start] + found[start..end];
        var ok := Remove(found[start..end], applied(k), answered(k));
        if !ok {
          assert k * DELETE_BATCH_SIZE < |Objects(old(names), root)|;
          return Raised;
        }
        start, k, done := start + DELETE_BATCH_SIZE, k + 1, end;
      }
      assert found[..done] == found;
      forall j: nat | j * DELETE_BATCH_SIZE < |all| ensures applied(j) && answered(j) {
      }
      removed := All(|found|);
    }
  }

  datatype Removal = All(count: nat) | Raised

  lemma {:induction false} CountDistinct<T>(s: seq<T>, all: set<T>)
    requires Distinct(s) && forall x :: x in s <==> x in all
    ensures |s| == |all|
  {
    if s == [] {
      assert all == {};
    } else {
      var front, x := s[..|s| - 1], s[|s| - 1];
      assert s == front + [x];
      WithoutLast(front, x);
      CountDistinct(front, all - {x});
    }
  }
}
