// Directory entries and link counts: create, sys_link and sys_unlink (kernel/sysfile.c),
// dirlookup and dirlink (kernel/fs.c).  Each method is what one system call does while it
// holds the inode locks.
module LinkCounts {
  import opened Wrappers

  const ROOT: nat := 1

  datatype Dirent = Dirent(inum: nat, name: string)
  datatype Kind = Dir | File | Device | Symlink
  datatype Inode = Inode(kind: Kind, nlink: nat)

  const DOT := "."
  const DOTDOT := ".."

  // The entries, other than ".", that name inode i in a linked directory.
  ghost function Refs(dirs: map<nat, seq<Dirent>>, linked: set<nat>, i: nat): set<(nat, nat)> {
    set d, k | d in linked && d in dirs && 0 <= k < |dirs[d]| && dirs[d][k].inum == i
        && dirs[d][k].name != DOT :: (d, k)
  }

  // An entry put into an unused slot, or at the end.
  function Put(slots: seq<Dirent>, k: nat, e: Dirent): seq<Dirent>
    requires k <= |slots|
  {
    if k < |slots| then slots[k := e] else slots + [e]
  }

  lemma RefsPut(dirs: map<nat, seq<Dirent>>, linked: set<nat>, d: nat, k: nat, e: Dirent, i: nat)
    requires d in linked && d in dirs && k <= |dirs[d]| && (k < |dirs[d]| ==> dirs[d][k].inum == 0)
    requires e.name != DOT && i != 0
    ensures (d, k) !in Refs(dirs, linked, i)
    ensures Refs(dirs[d := Put(dirs[d], k, e)], linked, i) == Refs(dirs, linked, i) + if e.inum == i then {(d, k)}
      else {}
  {
  }

  lemma RefsClear(dirs: map<nat, seq<Dirent>>, linked: set<nat>, d: nat, k: nat, i: nat)
    requires d in linked && d in dirs && k < |dirs[d]| && dirs[d][k].name != DOT && i != 0
    ensures dirs[d][k].inum == i ==> (d, k) in Refs(dirs, linked, i)
    ensures Refs(dirs[d := dirs[d][k := Dirent(0, "")]], linked, i)
         == Refs(dirs, linked, i) - if dirs[d][k].inum == i then {(d, k)} else {}
  {
  }

  lemma RefsAddDir(dirs: map<nat, seq<Dirent>>, linked: set<nat>, n: nat, p: nat, i: nat)
    requires n !in linked && i != 0
    ensures forall k :: (n, k) !in Refs(dirs, linked, i)
    ensures Refs(dirs[n := [Dirent(n, DOT), Dirent(p, DOTDOT)]], linked + {n}, i)
         == Refs(dirs, linked, i) + if p == i then {(n, 1)} else {}
  {
    var dirs': map<nat, seq<Dirent>> := dirs[n := [Dirent(n, DOT), Dirent(p, DOTDOT)]];
    assert p == i ==> dirs'[n][1].name != DOT;
  }

  lemma RefsDropDir(dirs: map<nat, seq<Dirent>>, linked: set<nat>, n: nat, i: nat)
    requires n in linked && n in dirs && i != 0 && |dirs[n]| >= 2 && dirs[n][0].name == DOT && dirs[n][1].name == DOTDOT
    requires forall k :: 2 <= k < |dirs[n]| ==> dirs[n][k].inum == 0
    ensures dirs[n][1].inum == i ==> (n, 1) in Refs(dirs, linked, i)
    ensures Refs(dirs, linked - {n}, i) == Refs(dirs, linked, i) - if dirs[n][1].inum == i then {(n, 1)} else {}
  {
  }

  // Entry k of directory d, and the updates below, are total: they do nothing where there
  // is nothing to do.
  function Entry(dirs: map<nat, seq<Dirent>>, d: nat, k: nat): Dirent {
    if d in dirs && k < |dirs[d]| then dirs[d][k] else Dirent(0, "")
  }

  function Cleared(dirs: map<nat, seq<Dirent>>, d: nat, k: nat): map<nat, seq<Dirent>> {
    if d in dirs && k < |dirs[d]| then dirs[d := dirs[d][k := Dirent(0, "")]] else dirs
  }

  function Entered(dirs: map<nat, seq<Dirent>>, d: nat, k: nat, e: Dirent): map<nat, seq<Dirent>> {
    if d in dirs && k <= |dirs[d]| then dirs[d := Put(dirs[d], k, e)] else dirs
  }

  function Added(inodes: map<nat, Inode>, i: nat, delta: int): map<nat, Inode> {
    if i in inodes && inodes[i].nlink + delta >= 0 then inodes[i := inodes[i].(nlink := inodes[i].nlink + delta)]
        else inodes
  }

  // Slot k of directory d is in use for name.
  ghost predicate Names(dirs: map<nat, seq<Dirent>>, d: nat, k: nat, name: string) {
    d in dirs && k < |dirs[d]| && dirs[d][k].inum != 0 && dirs[d][k].name == name
  }

  // No slot of directory d is in use for name.
  ghost predicate Unused(dirs: map<nat, seq<Dirent>>, d: nat, name: string) {
    d in dirs && forall k :: 0 <= k < |dirs[d]| && dirs[d][k].inum != 0 ==> dirs[d][k].name != name
  }

  // What create hands back when a file is asked for and the name exists.
  ghost predicate OpensAsFile(inodes: map<nat, Inode>, i: nat) {
    i in inodes && (inodes[i].kind == File || inodes[i].kind == Device)
  }

  function KindOf(inodes: map<nat, Inode>, i: nat): Kind {
    if i in inodes then inodes[i].kind else File
  }

  // The link count of an inode; 0 if there is none.
  function Links(inodes: map<nat, Inode>, i: nat): nat {
    if i in inodes then inodes[i].nlink else 0
  }

  function Dots(n: nat, dp: nat): seq<Dirent> {
    [Dirent(n, DOT), Dirent(dp, DOTDOT)]
  }

  // ---- the invariant ----

  // Link counts: the entries that name an inode, and the sys_link calls under way.
  ghost predicate Counted(inodes: map<nat, Inode>, dirs: map<nat, seq<Dirent>>, linked: set<nat>,
                          pending: multiset<nat>) {
    forall i :: i in inodes ==> i != 0 && inodes[i].nlink == |Refs(dirs, linked, i)| + pending[i]
  }

  // The same while inode n is due extra entries more than it has.
  ghost predicate CountedBut(inodes: map<nat, Inode>, dirs: map<nat, seq<Dirent>>, linked: set<nat>,
                             pending: multiset<nat>, n: nat, extra: int) {
    forall i :: i in inodes ==>
      i != 0 && inodes[i].nlink == |Refs(dirs, linked, i)| + pending[i] + if i == n then extra else 0
  }

  // The entries of a linked directory: "." and ".." first, each name once, and every entry
  // names an inode.
  ghost predicate Shape(inodes: map<nat, Inode>, dirs: map<nat, seq<Dirent>>, linked: set<nat>, d: nat) {
    && d in dirs && d in inodes && inodes[d].kind == Dir && |dirs[d]| >= 2
    && dirs[d][0] == Dirent(d, DOT) && dirs[d][1].name == DOTDOT && dirs[d][1].inum in linked && dirs[d][1].inum != 0
    && (forall k :: 0 <= k < |dirs[d]| && dirs[d][k].inum != 0 ==> dirs[d][k].inum in inodes)
    && (forall j, k :: 0 <= j < k < |dirs[d]| && dirs[d][j].inum != 0 && dirs[d][k].inum != 0 ==>
        dirs[d][j].name != dirs[d][k].name)
  }

  ghost predicate Shapes(inodes: map<nat, Inode>, dirs: map<nat, seq<Dirent>>, linked: set<nat>) {
    forall d :: d in linked ==> Shape(inodes, dirs, linked, d)
  }

  // The entry that names directory d is slot place[d] of its parent.
  ghost predicate Placed(dirs: map<nat, seq<Dirent>>, place: map<nat, nat>, d: nat) {
    && d in dirs && |dirs[d]| >= 2 && dirs[d][1].inum in dirs && d in place
    && 2 <= place[d] < |dirs[dirs[d][1].inum]| && dirs[dirs[d][1].inum][place[d]].inum == d
  }

  // Linked directories form a tree: each but the root is named by one entry, in its parent.
  ghost predicate Tree(inodes: map<nat, Inode>, dirs: map<nat, seq<Dirent>>, linked: set<nat>, place: map<nat, nat>) {
    && ROOT in linked && ROOT in dirs && |dirs[ROOT]| >= 2 && dirs[ROOT][1].inum == ROOT
    && (forall d :: d in linked && d != ROOT ==> Placed(dirs, place, d))
    && (forall e, k :: e in linked && e in dirs && 2 <= k < |dirs[e]| ==> OnlyPlace(inodes, dirs, linked, place, e, k))
  }

  ghost predicate OnlyPlace(inodes: map<nat, Inode>, dirs: map<nat, seq<Dirent>>, linked: set<nat>,
                            place: map<nat, nat>, e: nat, k: int)
    requires e in dirs && 0 <= k < |dirs[e]|
  {
    var d := dirs[e][k].inum;
    d in inodes && inodes[d].kind == Dir ==>
      && d in linked && d != ROOT && d in dirs && |dirs[d]| >= 2 && dirs[d][1].inum == e && d in place && place[d] == k
  }

  // A directory is linked exactly if its count is positive, and sys_link is for files.
  ghost predicate Kinds(inodes: map<nat, Inode>, linked: set<nat>, pending: multiset<nat>) {
    && (forall i :: i in inodes && inodes[i].kind == Dir ==> (i in linked <==> inodes[i].nlink > 0))
    && (forall i: nat :: pending[i] > 0 ==> i in inodes && inodes[i].kind != Dir)
  }

  ghost predicate Inv(inodes: map<nat, Inode>, dirs: map<nat, seq<Dirent>>, linked: set<nat>, place: map<nat, nat>,
                      pending: multiset<nat>) {
    && Counted(inodes, dirs, linked, pending) && Shapes(inodes, dirs, linked) && Tree(inodes, dirs, linked, place)
    && Kinds(inodes, linked, pending)
  }

  // A removed directory has no entries but the dots.
  ghost predicate Emptied(dirs: map<nat, seq<Dirent>>, linked: set<nat>) {
    forall d, k :: d in dirs && d !in linked && 0 <= k < |dirs[d]| && dirs[d][k].inum != 0 ==>
      dirs[d][k].name == DOT || dirs[d][k].name == DOTDOT
  }

  // ---- directories ----

  // The slot of a name.
  method DirLookup(slots: seq<Dirent>, name: string) returns (r: Option<nat>)
    ensures r.Some? ==> r.value < |slots| && slots[r.value].inum != 0 && slots[r.value].name == name
    ensures r.Some? ==> forall k :: 0 <= k < r.value && slots[k].inum != 0 ==> slots[k].name != name
    ensures r.None? ==> forall k :: 0 <= k < |slots| && slots[k].inum != 0 ==> slots[k].name != name
  {
    var off := 0;
    while off < |slots|
      invariant off <= |slots| && forall k :: 0 <= k < off && slots[k].inum != 0 ==> slots[k].name != name
    {
      if slots[off].inum != 0 && slots[off].name == name {
        return Some(off);
      }
      off := off + 1;
    }
    return None;
  }

  // The slot dirlink uses for a new name: the first unused one, or the end.
  method FreeSlot(slots: seq<Dirent>) returns (k: nat)
    ensures k <= |slots| && (k < |slots| ==> slots[k].inum == 0) && forall j :: 0 <= j < k ==> slots[j].inum != 0
  {
    k := 0;
    while k < |slots|
      invariant k <= |slots| && forall j :: 0 <= j < k ==> slots[j].inum != 0
    {
      if slots[k].inum == 0 {
        break;
      }
      k := k + 1;
    }
  }

  method IsDirEmpty(slots: seq<Dirent>) returns (b: bool)
    ensures b <==> forall k :: 2 <= k < |slots| ==> slots[k].inum == 0
  {
    var off := 2;
    while off < |slots|
      invariant 2 <= off && forall k :: 2 <= k < off && k < |slots| ==> slots[k].inum == 0
    {
      if slots[off].inum != 0 {
        return false;
      }
      off := off + 1;
    }
    return true;
  }

  // An entry of a linked directory names an inode with a positive count.
  lemma EntryCounted(inodes: map<nat, Inode>, dirs: map<nat, seq<Dirent>>, linked: set<nat>, place: map<nat, nat>,
                     pending: multiset<nat>, d: nat, k: nat)
    requires Inv(inodes, dirs, linked, place, pending) && d in linked && d in dirs && k < |dirs[d]|
    requires dirs[d][k].inum != 0 && dirs[d][k].name != DOT
    ensures dirs[d][k].inum in inodes && inodes[dirs[d][k].inum].nlink > 0
  {
    hide Tree, Kinds, Shapes, Refs, Shape;
    InRefs(dirs, linked, d, k);
    InInodes(inodes, dirs, linked, d, k);
  }

  lemma InRefs(dirs: map<nat, seq<Dirent>>, linked: set<nat>, d: nat, k: nat)
    requires d in linked && d in dirs && k < |dirs[d]| && dirs[d][k].name != DOT
    ensures (d, k) in Refs(dirs, linked, dirs[d][k].inum)
  {
  }

  lemma InInodes(inodes: map<nat, Inode>, dirs: map<nat, seq<Dirent>>, linked: set<nat>, d: nat, k: nat)
    requires Shapes(inodes, dirs, linked) && d in linked && d in dirs && k < |dirs[d]| && dirs[d][k].inum != 0
    ensures dirs[d][k].inum in inodes
  {
    assert Shape(inodes, dirs, linked, d);
  }

  // ---- one entry more, one entry less ----

  ghost predicate FreeAt(dirs: map<nat, seq<Dirent>>, d: nat, k: nat, name: string) {
    && d in dirs && k <= |dirs[d]| && (k < |dirs[d]| ==> dirs[d][k].inum == 0)
    && forall j :: 0 <= j < |dirs[d]| && dirs[d][j].inum != 0 ==> dirs[d][j].name != name
  }

  lemma FreeFacts(inodes: map<nat, Inode>, dirs: map<nat, seq<Dirent>>, linked: set<nat>, d: nat, k: nat, name: string)
    requires Shapes(inodes, dirs, linked) && d in linked && d != 0 && FreeAt(dirs, d, k, name)
    ensures k >= 2 && name != DOT && name != DOTDOT
  {
    assert Shape(inodes, dirs, linked, d);
    assert dirs[d][0].inum != 0 && dirs[d][1].inum != 0;
  }

  lemma PutShapes(inodes: map<nat, Inode>, dirs: map<nat, seq<Dirent>>, linked: set<nat>, d: nat, k: nat, e: Dirent)
    requires Shapes(inodes, dirs, linked) && d in linked && FreeAt(dirs, d, k, e.name) && k >= 2 && e.inum in inodes
    ensures Shapes(inodes, dirs[d := Put(dirs[d], k, e)], linked)
  {
    var dirs' := dirs[d := Put(dirs[d], k, e)];
    forall x | x in linked ensures Shape(inodes, dirs', linked, x) {
      assert Shape(inodes, dirs, linked, x);
    }
  }

  lemma PutTree(inodes: map<nat, Inode>, dirs: map<nat, seq<Dirent>>, linked: set<nat>, place: map<nat, nat>, d: nat,
                k: nat, e: Dirent)
    requires Tree(inodes, dirs, linked, place) && Shapes(inodes, dirs, linked) && d in linked
    requires FreeAt(dirs, d, k, e.name) && k >= 2 && e.inum in inodes && inodes[e.inum].kind != Dir && 0 !in linked
    ensures Tree(inodes, dirs[d := Put(dirs[d], k, e)], linked, place)
  {
    var dirs' := dirs[d := Put(dirs[d], k, e)];
    assert Shape(inodes, dirs, linked, d);
    forall x | x in linked && x != ROOT ensures Placed(dirs', place, x) {
      assert Placed(dirs, place, x);
    }
    forall x, j | x in linked && x in dirs' && 2 <= j < |dirs'[x]|
      ensures OnlyPlace(inodes, dirs', linked, place, x, j)
    {
      if x != d || j != k {
        assert OnlyPlace(inodes, dirs, linked, place, x, j);
      }
    }
  }

  // Adding an entry for a file.
  lemma AddFile(inodes: map<nat, Inode>, dirs: map<nat, seq<Dirent>>, linked: set<nat>, place: map<nat, nat>,
                pending: multiset<nat>, d: nat, k: nat, e: Dirent, pending': multiset<nat>)
    requires Shapes(inodes, dirs, linked) && Tree(inodes, dirs, linked, place) && Kinds(inodes, linked, pending')
      && 0 !in linked
    requires d in linked && FreeAt(dirs, d, k, e.name) && e.inum in inodes && inodes[e.inum].kind != Dir
    requires CountedBut(inodes, dirs, linked, pending', e.inum, 1)
    ensures Inv(inodes, dirs[d := Put(dirs[d], k, e)], linked, place, pending')
  {
    hide Shapes, Tree, Kinds, Refs, Put;
    FreeFacts(inodes, dirs, linked, d, k, e.name);
    PutShapes(inodes, dirs, linked, d, k, e);
    PutTree(inodes, dirs, linked, place, d, k, e);
    var dirs' := dirs[d := Put(dirs[d], k, e)];
    forall i | i in inodes ensures i != 0 && inodes[i].nlink == |Refs(dirs', linked, i)| + pending'[i] {
      RefsPut(dirs, linked, d, k, e, i);
    }
  }

  // An inode that is not there is not named.
  lemma NotNamed(inodes: map<nat, Inode>, dirs: map<nat, seq<Dirent>>, linked: set<nat>, n: nat)
    requires Shapes(inodes, dirs, linked) && n !in inodes && n != 0
    ensures Refs(dirs, linked, n) == {} && n !in linked
  {
    assert forall d :: d in linked ==> Shape(inodes, dirs, linked, d);
  }

  // A new inode, which nothing names yet.
  lemma NewFile(inodes: map<nat, Inode>, dirs: map<nat, seq<Dirent>>, linked: set<nat>, place: map<nat, nat>,
                pending: multiset<nat>, n: nat, kind: Kind)
    requires Inv(inodes, dirs, linked, place, pending) && n !in inodes && n != 0 && kind != Dir
    ensures var inodes' := inodes[n := Inode(kind, 1)];
      && Shapes(inodes', dirs, linked) && Tree(inodes', dirs, linked, place) && Kinds(inodes', linked, pending)
      && CountedBut(inodes', dirs, linked, pending, n, 1)
  {
    hide Refs;
    NotNamed(inodes, dirs, linked, n);
    var inodes' := inodes[n := Inode(kind, 1)];
    forall d | d in linked ensures Shape(inodes', dirs, linked, d) {
      assert Shape(inodes, dirs, linked, d);
    }
    forall e, k | e in linked && e in dirs && 2 <= k < |dirs[e]| ensures OnlyPlace(inodes', dirs, linked, place, e, k) {
      assert OnlyPlace(inodes, dirs, linked, place, e, k) && Shape(inodes, dirs, linked, e);
    }
  }

  // A new directory in dp: its own two entries, and one more for dp to count.
  lemma NewDir(inodes: map<nat, Inode>, dirs: map<nat, seq<Dirent>>, linked: set<nat>, place: map<nat, nat>,
               pending: multiset<nat>, dp: nat, k: nat, name: string, n: nat)
    requires Inv(inodes, dirs, linked, place, pending) && n !in inodes && n != 0 && n != ROOT
    requires dp in linked && FreeAt(dirs, dp, k, name)
    ensures dp in inodes && dp != n && n !in linked
    ensures Inv(Added(inodes[n := Inode(Dir, 1)], dp, 1), Entered(dirs[n := Dots(n, dp)], dp, k, Dirent(n, name)),
                linked + {n}, place[n := k], pending)
  {
    hide Refs, Put, Tree, Shape, Shapes, Counted, Kinds;
    InvFacts(inodes, dirs, linked, place, pending, dp);
    NotNamed(inodes, dirs, linked, n);
    FreeFacts(inodes, dirs, linked, dp, k, name);
    var inodes' := inodes[n := Inode(Dir, 1)][dp := inodes[dp].(nlink := inodes[dp].nlink + 1)];
    NewDirCounted(inodes, dirs, linked, pending, dp, k, name, n);
    NewDirShapes(inodes, dirs, linked, dp, k, name, n, inodes');
    NewDirTree(inodes, dirs, linked, place, dp, k, name, n, inodes');
  }

  lemma NewDirCounted(inodes: map<nat, Inode>, dirs: map<nat, seq<Dirent>>, linked: set<nat>, pending: multiset<nat>,
                      dp: nat, k: nat, name: string, n: nat)
    requires Counted(inodes, dirs, linked, pending) && Kinds(inodes, linked, pending) && n !in inodes && n != 0
    requires n !in linked && Refs(dirs, linked, n) == {} && dp in linked && dp in inodes && FreeAt(dirs, dp, k, name)
      && name != DOT
    ensures var inodes' := inodes[n := Inode(Dir, 1)][dp := inodes[dp].(nlink := inodes[dp].nlink + 1)];
      var dirs' := dirs[n := Dots(n, dp)][dp := Put(dirs[dp], k, Dirent(n, name))];
      Counted(inodes', dirs', linked + {n}, pending) && Kinds(inodes', linked + {n}, pending)
  {
    hide Refs, Put;
    var inodes' := inodes[n := Inode(Dir, 1)][dp := inodes[dp].(nlink := inodes[dp].nlink + 1)];
    var dirs1 := dirs[n := Dots(n, dp)];
    var dirs', linked' := dirs1[dp := Put(dirs[dp], k, Dirent(n, name))], linked + {n};
    forall i | i in inodes' ensures i != 0 && inodes'[i].nlink == |Refs(dirs', linked', i)| + pending[i] {
      RefsAddDir(dirs, linked, n, dp, i);
      RefsPut(dirs1, linked', dp, k, Dirent(n, name), i);
    }
  }

  lemma InvFacts(inodes: map<nat, Inode>, dirs: map<nat, seq<Dirent>>, linked: set<nat>, place: map<nat, nat>,
                 pending: multiset<nat>, d: nat)
    requires Inv(inodes, dirs, linked, place, pending) && d in linked
    ensures d in inodes && d != 0 && 0 !in linked && d in dirs && |dirs[d]| >= 2 && inodes[d].kind == Dir
      && 0 !in inodes
    ensures dirs[d][1].inum in linked
  {
    assert Shape(inodes, dirs, linked, d);
    LinkedDirs(inodes, dirs, linked);
  }

  lemma NewDirShapes(inodes: map<nat, Inode>, dirs: map<nat, seq<Dirent>>, linked: set<nat>, dp: nat, k: nat,
                     name: string, n: nat, inodes': map<nat, Inode>)
    requires Shapes(inodes, dirs, linked) && n !in inodes && n != 0 && n !in linked && dp in linked && dp != 0
    requires FreeAt(dirs, dp, k, name) && k >= 2
    requires inodes'.Keys == inodes.Keys + {n} && inodes'[n].kind == Dir && forall i :: i in inodes ==>
      inodes'[i].kind == inodes[i].kind
    ensures Shapes(inodes', dirs[n := [Dirent(n, DOT), Dirent(dp, DOTDOT)]][dp := Put(dirs[dp], k, Dirent(n, name))],
                   linked + {n})
  {
    var dirs1 := dirs[n := [Dirent(n, DOT), Dirent(dp, DOTDOT)]];
    forall x | x in linked + {n} ensures Shape(inodes', dirs1, linked + {n}, x) {
      if x != n {
        assert Shape(inodes, dirs, linked, x);
      }
    }
    assert Shape(inodes, dirs, linked, dp);
    PutShapes(inodes', dirs1, linked + {n}, dp, k, Dirent(n, name));
  }

  lemma NewDirTree(inodes: map<nat, Inode>, dirs: map<nat, seq<Dirent>>, linked: set<nat>, place: map<nat, nat>,
                   dp: nat, k: nat, name: string, n: nat, inodes': map<nat, Inode>)
    requires Tree(inodes, dirs, linked, place) && Shapes(inodes, dirs, linked) && n !in inodes && n != ROOT
      && n !in linked && n != 0
    requires dp in linked && FreeAt(dirs, dp, k, name) && k >= 2 && 0 !in linked
    requires inodes'.Keys == inodes.Keys + {n} && forall i :: i in inodes ==> inodes'[i].kind == inodes[i].kind
    ensures Tree(inodes', dirs[n := [Dirent(n, DOT), Dirent(dp, DOTDOT)]][dp := Put(dirs[dp], k, Dirent(n, name))],
                 linked + {n}, place[n := k])
  {
    var dirs' := dirs[n := [Dirent(n, DOT), Dirent(dp, DOTDOT)]][dp := Put(dirs[dp], k, Dirent(n, name))];
    var linked', place' := linked + {n}, place[n := k];
    assert Shape(inodes, dirs, linked, dp);
    forall x | x in linked' && x != ROOT ensures Placed(dirs', place', x) {
      if x != n {
        assert Placed(dirs, place, x) && Shape(inodes, dirs, linked, x);
      }
    }
    forall x, j | x in linked' && x in dirs' && 2 <= j < |dirs'[x]|
      ensures OnlyPlace(inodes', dirs', linked', place', x, j)
    {
      if x != dp || j != k {
        assert Shape(inodes, dirs, linked, x) && OnlyPlace(inodes, dirs, linked, place, x, j);
      }
    }
  }

  // ---- removing an entry ----

  lemma ClearShapes(inodes: map<nat, Inode>, dirs: map<nat, seq<Dirent>>, linked: set<nat>, d: nat, k: nat)
    requires Shapes(inodes, dirs, linked) && d in linked && d in dirs && 2 <= k < |dirs[d]|
    ensures Shapes(inodes, dirs[d := dirs[d][k := Dirent(0, "")]], linked)
  {
    var dirs' := dirs[d := dirs[d][k := Dirent(0, "")]];
    forall x | x in linked ensures Shape(inodes, dirs', linked, x) {
      assert Shape(inodes, dirs, linked, x);
    }
  }

  lemma ClearTree(inodes: map<nat, Inode>, dirs: map<nat, seq<Dirent>>, linked: set<nat>, place: map<nat, nat>,
                  d: nat, k: nat)
    requires Tree(inodes, dirs, linked, place) && d in linked && d in dirs && 2 <= k < |dirs[d]|
    requires dirs[d][k].inum in inodes && inodes[dirs[d][k].inum].kind != Dir && 0 !in inodes
    requires forall x :: x in linked ==> x in inodes && inodes[x].kind == Dir
    ensures Tree(inodes, dirs[d := dirs[d][k := Dirent(0, "")]], linked, place)
  {
    var dirs' := dirs[d := dirs[d][k := Dirent(0, "")]];
    forall x | x in linked && x != ROOT ensures Placed(dirs', place, x) {
      assert Placed(dirs, place, x);
    }
    forall x, j | x in linked && x in dirs' && 2 <= j < |dirs'[x]|
      ensures OnlyPlace(inodes, dirs', linked, place, x, j)
    {
      assert OnlyPlace(inodes, dirs, linked, place, x, j);
    }
  }

  lemma SetCount(inodes: map<nat, Inode>, dirs: map<nat, seq<Dirent>>, linked: set<nat>, place: map<nat, nat>, i: nat,
                 n: nat)
    requires i in inodes
    ensures var inodes' := inodes[i := inodes[i].(nlink := n)];
      && (Shapes(inodes, dirs, linked) ==> Shapes(inodes', dirs, linked))
      && (Tree(inodes, dirs, linked, place) ==> Tree(inodes', dirs, linked, place))
  {
    var inodes' := inodes[i := inodes[i].(nlink := n)];
    if Shapes(inodes, dirs, linked) {
      forall d | d in linked ensures Shape(inodes', dirs, linked, d) {
        assert Shape(inodes, dirs, linked, d);
      }
    }
    if Tree(inodes, dirs, linked, place) {
      forall e, k | e in linked && e in dirs && 2 <= k < |dirs[e]|
        ensures OnlyPlace(inodes', dirs, linked, place, e, k)
      {
        assert OnlyPlace(inodes, dirs, linked, place, e, k);
      }
    }
  }

  // Removing an entry for a file.
  lemma RemoveFile(inodes: map<nat, Inode>, dirs: map<nat, seq<Dirent>>, linked: set<nat>, place: map<nat, nat>,
                   pending: multiset<nat>, d: nat, k: nat)
    requires Inv(inodes, dirs, linked, place, pending) && d in linked && d in dirs && 2 <= k < |dirs[d]|
    requires dirs[d][k].inum in inodes && inodes[dirs[d][k].inum].kind != Dir && dirs[d][k].name != DOT
    ensures var i := Entry(dirs, d, k).inum;
      Inv(Added(inodes, i, -1), Cleared(dirs, d, k), linked, place, pending) && i in inodes && inodes[i].nlink > 0
  {
    hide Refs, Shapes, Tree;
    var i := dirs[d][k].inum;
    InvFacts(inodes, dirs, linked, place, pending, d);
    EntryCounted(inodes, dirs, linked, place, pending, d, k);
    LinkedDirs(inodes, dirs, linked);
    var dirs' := dirs[d := dirs[d][k := Dirent(0, "")]];
    ClearShapes(inodes, dirs, linked, d, k);
    ClearTree(inodes, dirs, linked, place, d, k);
    SetCount(inodes, dirs', linked, place, i, inodes[i].nlink - 1);
    var inodes' := inodes[i := inodes[i].(nlink := inodes[i].nlink - 1)];
    forall j | j in inodes' ensures j != 0 && inodes'[j].nlink == |Refs(dirs', linked, j)| + pending[j] {
      RefsClear(dirs, linked, d, k, j);
    }
  }

  lemma LinkedDirs(inodes: map<nat, Inode>, dirs: map<nat, seq<Dirent>>, linked: set<nat>)
    requires Shapes(inodes, dirs, linked)
    ensures forall x :: x in linked ==> x in inodes && inodes[x].kind == Dir
  {
    forall x | x in linked ensures x in inodes && inodes[x].kind == Dir {
      assert Shape(inodes, dirs, linked, x);
    }
  }

  // An empty directory is named by one entry only.
  lemma NamedOnce(inodes: map<nat, Inode>, dirs: map<nat, seq<Dirent>>, linked: set<nat>, place: map<nat, nat>,
                  d: nat, k: nat)
    requires Tree(inodes, dirs, linked, place) && Shapes(inodes, dirs, linked) && d in linked && d in dirs
      && 2 <= k < |dirs[d]|
    requires var i := dirs[d][k].inum;
      i in inodes && i != 0 && inodes[i].kind == Dir && dirs[d][k].name != DOT && i in dirs
      && forall j :: 2 <= j < |dirs[i]| ==> dirs[i][j].inum == 0
    requires 0 !in linked
    ensures var i := dirs[d][k].inum;
      Refs(dirs, linked, i) == {(d, k)} && i in linked && i != ROOT && i != d && dirs[i][1].inum == d
  {
    var i := dirs[d][k].inum;
    assert OnlyPlace(inodes, dirs, linked, place, d, k);
    assert Shape(inodes, dirs, linked, d) && Shape(inodes, dirs, linked, i);
    forall e, j | (e, j) in Refs(dirs, linked, i) ensures (e, j) == (d, k) {
      assert Shape(inodes, dirs, linked, e);
      if j >= 2 {
        assert OnlyPlace(inodes, dirs, linked, place, e, j);
      } else {
        NoChild(dirs, linked, place, inodes, i, e);
      }
    }
  }

  // The parent of a linked directory is not empty.
  lemma NoChild(dirs: map<nat, seq<Dirent>>, linked: set<nat>, place: map<nat, nat>, inodes: map<nat, Inode>, i: nat,
                e: nat)
    requires Tree(inodes, dirs, linked, place) && i in dirs && i != ROOT && 0 !in linked
    requires forall j :: 2 <= j < |dirs[i]| ==> dirs[i][j].inum == 0
    ensures e in linked && e in dirs && |dirs[e]| >= 2 ==> dirs[e][1].inum != i
  {
    if e in linked && e != ROOT {
      assert Placed(dirs, place, e);
    }
  }

  // e names an empty directory.
  ghost predicate EmptyDir(inodes: map<nat, Inode>, dirs: map<nat, seq<Dirent>>, e: Dirent) {
    && e.inum in inodes && inodes[e.inum].kind == Dir && e.name != DOT && e.inum in dirs
    && forall j :: 2 <= j < |dirs[e.inum]| ==> dirs[e.inum][j].inum == 0
  }

  // Removing an empty directory.
  lemma RemoveDir(inodes: map<nat, Inode>, dirs: map<nat, seq<Dirent>>, linked: set<nat>, place: map<nat, nat>,
                  pending: multiset<nat>, d: nat, k: nat)
    requires Inv(inodes, dirs, linked, place, pending) && d in linked && d in dirs && 2 <= k < |dirs[d]|
    requires EmptyDir(inodes, dirs, Entry(dirs, d, k))
    ensures var i := Entry(dirs, d, k).inum;
      && i != d && Inv(Added(Added(inodes, d, -1), i, -1), Cleared(dirs, d, k), linked - {i}, place - {i}, pending)
      && i in inodes && d in inodes && inodes[i].nlink > 0 && inodes[d].nlink > 0
  {
    hide Refs, Shapes, Tree, Counted, Kinds, Shape;
    var i := dirs[d][k].inum;
    InvFacts(inodes, dirs, linked, place, pending, d);
    NamedOnce(inodes, dirs, linked, place, d, k);
    EntryCounted(inodes, dirs, linked, place, pending, d, k);
    InvFacts(inodes, dirs, linked, place, pending, i);
    DotsOf(inodes, dirs, linked, i);
    EntryCounted(inodes, dirs, linked, place, pending, i, 1);
    var dirs', linked' := dirs[d := dirs[d][k := Dirent(0, "")]], linked - {i};
    var inodes1 := inodes[d := inodes[d].(nlink := inodes[d].nlink - 1)];
    ParentKept(inodes, dirs, linked, place, i);
    ClearShapes(inodes, dirs, linked, d, k);
    DropShapes(inodes, dirs, linked, d, k);
    DropTree(inodes, dirs, linked, place, d, k);
    SetCount(inodes, dirs', linked', place - {i}, d, inodes[d].nlink - 1);
    SetCount(inodes1, dirs', linked', place - {i}, i, inodes[i].nlink - 1);
    StillNamed(inodes, dirs, linked, place, pending, d, i);
    OneCount(inodes, dirs, linked, pending, i, (d, k));
    RemoveDirCounted(inodes, dirs, linked, pending, d, k);
  }

  lemma DotsOf(inodes: map<nat, Inode>, dirs: map<nat, seq<Dirent>>, linked: set<nat>, d: nat)
    requires Shapes(inodes, dirs, linked) && d in linked
    ensures d in dirs && |dirs[d]| >= 2 && dirs[d][0].name == DOT && dirs[d][1].name == DOTDOT && dirs[d][1].inum != 0
  {
    assert Shape(inodes, dirs, linked, d);
  }

  lemma RemoveDirCounted(inodes: map<nat, Inode>, dirs: map<nat, seq<Dirent>>, linked: set<nat>,
                         pending: multiset<nat>, d: nat, k: nat)
    requires Counted(inodes, dirs, linked, pending) && Kinds(inodes, linked, pending) && d in linked && d in dirs
      && 2 <= k < |dirs[d]|
    requires EmptyDir(inodes, dirs, dirs[d][k]) && d in inodes && inodes[d].nlink >= 2
    requires var i := dirs[d][k].inum;
      i in linked && i != d && |dirs[i]| >= 2 && dirs[i][0].name == DOT && dirs[i][1] == Dirent(d, DOTDOT)
          && inodes[i].nlink == 1
    ensures var i := dirs[d][k].inum;
      var inodes' := inodes[d := inodes[d].(nlink := inodes[d].nlink - 1)][i :=
          inodes[i].(nlink := inodes[i].nlink - 1)];
      && Counted(inodes', dirs[d := dirs[d][k := Dirent(0, "")]], linked - {i}, pending)
      && Kinds(inodes', linked - {i}, pending)
  {
    hide Refs;
    var i := dirs[d][k].inum;
    var dirs', linked' := dirs[d := dirs[d][k := Dirent(0, "")]], linked - {i};
    var inodes' := inodes[d := inodes[d].(nlink := inodes[d].nlink - 1)][i := inodes[i].(nlink := inodes[i].nlink - 1)];
    forall j | j in inodes' ensures j != 0 && inodes'[j].nlink == |Refs(dirs', linked', j)| + pending[j] {
      RefsDropDir(dirs, linked, i, j);
      RefsClear(dirs, linked', d, k, j);
    }
  }

  lemma OneCount(inodes: map<nat, Inode>, dirs: map<nat, seq<Dirent>>, linked: set<nat>, pending: multiset<nat>,
                 i: nat, r: (nat, nat))
    requires Counted(inodes, dirs, linked, pending) && Kinds(inodes, linked, pending) && i in inodes
      && inodes[i].kind == Dir
    requires Refs(dirs, linked, i) == {r}
    ensures inodes[i].nlink == 1
  {
    hide Refs;
  }

  // Nobody has an empty directory as parent.
  lemma ParentKept(inodes: map<nat, Inode>, dirs: map<nat, seq<Dirent>>, linked: set<nat>, place: map<nat, nat>, i: nat)
    requires Tree(inodes, dirs, linked, place) && Shapes(inodes, dirs, linked) && i in dirs && i != ROOT && 0 !in linked
    requires forall j :: 2 <= j < |dirs[i]| ==> dirs[i][j].inum == 0
    ensures forall e :: e in linked ==> e in dirs && |dirs[e]| >= 2 && dirs[e][1].inum != i
  {
    forall e | e in linked ensures e in dirs && |dirs[e]| >= 2 && dirs[e][1].inum != i {
      assert Shape(inodes, dirs, linked, e);
      NoChild(dirs, linked, place, inodes, i, e);
    }
  }

  lemma DropShapes(inodes: map<nat, Inode>, dirs: map<nat, seq<Dirent>>, linked: set<nat>, d: nat, k: nat)
    requires d in dirs && 2 <= k < |dirs[d]| && Shapes(inodes, dirs[d := dirs[d][k := Dirent(0, "")]], linked)
    requires forall e :: e in linked ==> e in dirs && |dirs[e]| >= 2 && dirs[e][1].inum != dirs[d][k].inum
    ensures Shapes(inodes, dirs[d := dirs[d][k := Dirent(0, "")]], linked - {dirs[d][k].inum})
  {
    var i, dirs' := dirs[d][k].inum, dirs[d := dirs[d][k := Dirent(0, "")]];
    forall x | x in linked - {i} ensures Shape(inodes, dirs', linked - {i}, x) {
      assert Shape(inodes, dirs', linked, x);
    }
  }

  lemma DropTree(inodes: map<nat, Inode>, dirs: map<nat, seq<Dirent>>, linked: set<nat>, place: map<nat, nat>, d: nat,
                 k: nat)
    requires Tree(inodes, dirs, linked, place) && d in linked && d in dirs && 2 <= k < |dirs[d]| && 0 !in inodes
    requires var i := dirs[d][k].inum; i in inodes && inodes[i].kind == Dir && i != ROOT && i != d
    requires forall e :: e in linked ==> e in dirs && |dirs[e]| >= 2 && dirs[e][1].inum != dirs[d][k].inum
    ensures Tree(inodes, dirs[d := dirs[d][k := Dirent(0, "")]], linked - {dirs[d][k].inum}, place - {dirs[d][k].inum})
  {
    var i, dirs' := dirs[d][k].inum, dirs[d := dirs[d][k := Dirent(0, "")]];
    var linked', place' := linked - {i}, place - {i};
    assert OnlyPlace(inodes, dirs, linked, place, d, k);
    forall x | x in linked' && x != ROOT ensures Placed(dirs', place', x) {
      assert Placed(dirs, place, x);
    }
    forall x, j | x in linked' && x in dirs' && 2 <= j < |dirs'[x]|
      ensures OnlyPlace(inodes, dirs', linked', place', x, j)
    {
      assert OnlyPlace(inodes, dirs, linked, place, x, j);
    }
  }

  // The parent of a removed directory is still named by something else.
  lemma StillNamed(inodes: map<nat, Inode>, dirs: map<nat, seq<Dirent>>, linked: set<nat>, place: map<nat, nat>,
                   pending: multiset<nat>, d: nat, i: nat)
    requires Inv(inodes, dirs, linked, place, pending) && d in linked && i in linked && i != d && i != ROOT
    requires i in dirs && |dirs[i]| >= 2 && dirs[i][1] == Dirent(d, DOTDOT)
    requires forall e :: e in linked ==> e in dirs && |dirs[e]| >= 2 && dirs[e][1].inum != i
    ensures d in inodes && inodes[d].nlink >= 2
  {
    hide Kinds;
    var r := (ROOT, 1);
    if d != ROOT {
      assert Placed(dirs, place, d);
      r := (dirs[d][1].inum, place[d]);
    }
    assert r in Refs(dirs, linked, d) && (i, 1) in Refs(dirs, linked, d);
    TwoElements(Refs(dirs, linked, d), (i, 1), r);
  }

  lemma TwoElements(s: set<(nat, nat)>, a: (nat, nat), b: (nat, nat))
    requires a in s && b in s && a != b
    ensures |s| >= 2
  {
    assert s == (s - {a, b}) + {a, b};
  }

  lemma RefsElsewhere(dirs: map<nat, seq<Dirent>>, linked: set<nat>, d: nat, slots: seq<Dirent>, n: nat)
    requires d !in linked
    ensures Refs(dirs[d := slots], linked, n) == Refs(dirs, linked, n)
  {
  }

  // Creating an entry keeps the law exactly if the directory has not been removed: there is
  // nothing in the tree to show for the count of a file or directory created in a removed one.
  lemma CreateNeedsParent(inodes: map<nat, Inode>, dirs: map<nat, seq<Dirent>>, linked: set<nat>, place: map<nat, nat>,
                          pending: multiset<nat>, d: nat, k: nat, name: string, n: nat, kind: Kind)
    requires Inv(inodes, dirs, linked, place, pending) && n !in inodes && n != 0 && n != ROOT
    requires d in inodes && FreeAt(dirs, d, k, name)
    ensures var inodes' := if kind == Dir then Added(inodes[n := Inode(Dir, 1)], d, 1) else inodes[n := Inode(kind, 1)];
      var dirs' := Entered(if kind == Dir then dirs[n := Dots(n, d)] else dirs, d, k, Dirent(n, name));
      Counted(inodes', dirs', linked + (if kind == Dir then {n} else {}), pending) <==> d in linked
  {
    hide Shapes, Tree, Refs, Put;
    var inodes' := if kind == Dir then Added(inodes[n := Inode(Dir, 1)], d, 1) else inodes[n := Inode(kind, 1)];
    var dirs' := Entered(if kind == Dir then dirs[n := Dots(n, d)] else dirs, d, k, Dirent(n, name));
    var linked' := linked + if kind == Dir then {n} else {};
    if d in linked {
      if kind == Dir {
        NewDir(inodes, dirs, linked, place, pending, d, k, name, n);
      } else {
        AddNewFile(inodes, dirs, linked, place, pending, d, k, name, n, kind);
        assert linked' == linked;
      }
    } else {
      NotNamed(inodes, dirs, linked, n);
      UnseenEntry(dirs, linked, d, k, name, n, kind == Dir);
      assert n in inodes' && inodes'[n].nlink != |Refs(dirs', linked', n)| + pending[n];
    }
  }

  lemma UnseenEntry(dirs: map<nat, seq<Dirent>>, linked: set<nat>, d: nat, k: nat, name: string, n: nat, dir: bool)
    requires d !in linked && n !in linked && d != n && d in dirs && k <= |dirs[d]| && Refs(dirs, linked, n) == {}
    ensures Refs(Entered(if dir then dirs[n := Dots(n, d)] else dirs, d, k, Dirent(n, name)),
                 linked + (if dir then {n} else {}), n) == {}
  {
    hide Put;
    var dirs' := Entered(if dir then dirs[n := Dots(n, d)] else dirs, d, k, Dirent(n, name));
    forall e, j | (e, j) in Refs(dirs', linked + (if dir then {n} else {}), n) ensures (e, j) in Refs(dirs, linked, n) {
    }
  }

  // The same for the second part of sys_link.
  lemma LinkNeedsParent(inodes: map<nat, Inode>, dirs: map<nat, seq<Dirent>>, linked: set<nat>, place: map<nat, nat>,
                        pending: multiset<nat>, d: nat, k: nat, name: string, i: nat)
    requires Inv(inodes, dirs, linked, place, pending) && pending[i] > 0 && FreeAt(dirs, d, k, name)
    ensures Counted(inodes, Entered(dirs, d, k, Dirent(i, name)), linked, pending - multiset{i}) <==> d in linked
  {
    hide Shapes, Tree, Refs, Put;
    if d in linked {
      FinishLink(inodes, dirs, linked, place, pending, d, k, Dirent(i, name));
    } else {
      RefsElsewhere(dirs, linked, d, Put(dirs[d], k, Dirent(i, name)), i);
      assert i in inodes;
    }
  }

  lemma AddPending(inodes: map<nat, Inode>, dirs: map<nat, seq<Dirent>>, linked: set<nat>, place: map<nat, nat>,
                   pending: multiset<nat>, i: nat)
    requires Inv(inodes, dirs, linked, place, pending) && i in inodes && inodes[i].kind != Dir
    ensures Inv(inodes[i := inodes[i].(nlink := inodes[i].nlink + 1)], dirs, linked, place, pending + multiset{i})
  {
    hide Refs, Shapes, Tree;
    SetCount(inodes, dirs, linked, place, i, inodes[i].nlink + 1);
  }

  lemma DropPending(inodes: map<nat, Inode>, dirs: map<nat, seq<Dirent>>, linked: set<nat>, place: map<nat, nat>,
                    pending: multiset<nat>, i: nat)
    requires Inv(inodes, dirs, linked, place, pending) && pending[i] > 0
    ensures i in inodes && inodes[i].nlink > 0
    ensures Inv(inodes[i := inodes[i].(nlink := inodes[i].nlink - 1)], dirs, linked, place, pending - multiset{i})
  {
    hide Refs, Shapes, Tree;
    SetCount(inodes, dirs, linked, place, i, inodes[i].nlink - 1);
  }

  // A link under way gets its entry.
  lemma FinishLink(inodes: map<nat, Inode>, dirs: map<nat, seq<Dirent>>, linked: set<nat>, place: map<nat, nat>,
                   pending: multiset<nat>, d: nat, k: nat, e: Dirent)
    requires Inv(inodes, dirs, linked, place, pending) && pending[e.inum] > 0 && d in linked
      && FreeAt(dirs, d, k, e.name)
    ensures Inv(inodes, dirs[d := Put(dirs[d], k, e)], linked, place, pending - multiset{e.inum})
  {
    hide Refs, Shapes, Tree, Put;
    InvFacts(inodes, dirs, linked, place, pending, d);
    AddFile(inodes, dirs, linked, place, pending, d, k, e, pending - multiset{e.inum});
  }

  lemma AddNewFile(inodes: map<nat, Inode>, dirs: map<nat, seq<Dirent>>, linked: set<nat>, place: map<nat, nat>,
                   pending: multiset<nat>, d: nat, k: nat, name: string, n: nat, kind: Kind)
    requires Inv(inodes, dirs, linked, place, pending) && n !in inodes && n != 0 && d in linked
      && FreeAt(dirs, d, k, name)
    requires kind != Dir
    ensures Inv(inodes[n := Inode(kind, 1)], dirs[d := Put(dirs[d], k, Dirent(n, name))], linked, place, pending)
  {
    hide Refs, Shapes, Tree, Put, Kinds;
    InvFacts(inodes, dirs, linked, place, pending, d);
    NewFile(inodes, dirs, linked, place, pending, n, kind);
    AddFile(inodes[n := Inode(kind, 1)], dirs, linked, place, pending, d, k, Dirent(n, name), pending);
  }

  // An inode without links can be freed.
  lemma FreeInode(inodes: map<nat, Inode>, dirs: map<nat, seq<Dirent>>, linked: set<nat>, place: map<nat, nat>,
                  pending: multiset<nat>, i: nat)
    requires Inv(inodes, dirs, linked, place, pending) && i in inodes && inodes[i].nlink == 0
    ensures Inv(inodes - {i}, dirs - {i}, linked, place, pending) && i !in linked && Refs(dirs, linked, i) == {}
  {
    hide Refs, Shapes, Tree;
    LinkedDirs(inodes, dirs, linked);
    assert Refs(dirs, linked, i) == {};
    var inodes', dirs' := inodes - {i}, dirs - {i};
    forall j | j in inodes' ensures j != 0 && inodes'[j].nlink == |Refs(dirs', linked, j)| + pending[j] {
      RefsFree(dirs, linked, i, j);
    }
    FreeShapes(inodes, dirs, linked, i);
    FreeTree(inodes, dirs, linked, place, i);
  }

  lemma RefsFree(dirs: map<nat, seq<Dirent>>, linked: set<nat>, i: nat, j: nat)
    requires i !in linked
    ensures Refs(dirs - {i}, linked, j) == Refs(dirs, linked, j)
  {
  }

  lemma FreeShapes(inodes: map<nat, Inode>, dirs: map<nat, seq<Dirent>>, linked: set<nat>, i: nat)
    requires Shapes(inodes, dirs, linked) && i !in linked && i != 0 && Refs(dirs, linked, i) == {} && 0 !in linked
    ensures Shapes(inodes - {i}, dirs - {i}, linked)
  {
    forall d | d in linked ensures Shape(inodes - {i}, dirs - {i}, linked, d) {
      assert Shape(inodes, dirs, linked, d);
      forall k | 0 <= k < |dirs[d]| && dirs[d][k].inum != 0 ensures dirs[d][k].inum != i {
        assert (d, k) !in Refs(dirs, linked, i);
        assert k > 0 ==> dirs[d][0].name != dirs[d][k].name;
      }
    }
  }

  lemma FreeTree(inodes: map<nat, Inode>, dirs: map<nat, seq<Dirent>>, linked: set<nat>, place: map<nat, nat>, i: nat)
    requires Tree(inodes, dirs, linked, place) && Shapes(inodes, dirs, linked) && i !in linked
    ensures Tree(inodes - {i}, dirs - {i}, linked, place)
  {
    var dirs' := dirs - {i};
    forall x | x in linked && x != ROOT ensures Placed(dirs', place, x) {
      assert Placed(dirs, place, x) && Shape(inodes, dirs, linked, x);
    }
    forall x, j | x in linked && x in dirs' && 2 <= j < |dirs'[x]|
      ensures OnlyPlace(inodes - {i}, dirs', linked, place, x, j)
    {
      assert OnlyPlace(inodes, dirs, linked, place, x, j);
    }
  }

  datatype CreateResult = Refused | Existing(inum: nat) | Created(inum: nat)

  class NameSpace {
    var inodes: map<nat, Inode>
    var dirs: map<nat, seq<Dirent>>
    ghost var linked: set<nat>
    ghost var place: map<nat, nat>
    ghost var pending: multiset<nat>

    ghost predicate Valid()
      reads this
    {
      Inv(inodes, dirs, linked, place, pending) && Emptied(dirs, linked)
    }

    // The root directory of a new file system.
    constructor ()
      ensures Valid() && linked == {ROOT} && pending == multiset{} && inodes == map[ROOT := Inode(Dir, 1)]
    {
      inodes := map[ROOT := Inode(Dir, 1)];
      dirs := map[ROOT := [Dirent(ROOT, DOT), Dirent(ROOT, DOTDOT)]];
      linked, place, pending := {ROOT}, map[], multiset{};
      new;
      assert Refs(dirs, linked, ROOT) == {(ROOT, 1)};
    }

    // create in directory dp, with a fresh inode n from ialloc.  Existing files are returned
    // when a file is asked for.
    method Create(dp: nat, name: string, kind: Kind, n: nat) returns (r: CreateResult, ghost k: nat)
      requires Valid() && dp in linked && n !in inodes && n != 0 && n != ROOT
      modifies this
      ensures Valid() && pending == old(pending)
      ensures !r.Created? ==>
        && inodes == old(inodes) && dirs == old(dirs) && linked == old(linked) && Names(dirs, dp, k, name)
        && r == if kind == File
             && OpensAsFile(inodes, Entry(dirs, dp, k).inum) then Existing(Entry(dirs, dp, k).inum) else Refused
      ensures r.Created? ==>
        && r.inum == n && linked == old(linked) + (if kind == Dir then {n} else {}) && FreeAt(old(dirs), dp, k, name)
        && inodes == (if kind == Dir then Added(old(inodes)[n := Inode(Dir, 1)], dp, 1)
                      else old(inodes)[n := Inode(kind, 1)])
        && dirs == Entered(if kind == Dir then old(dirs)[n := Dots(n, dp)] else old(dirs), dp, k, Dirent(n, name))
    {
      hide Inv, Refs, Put;
      InvFacts(inodes, dirs, linked, place, pending, dp);
      var found := DirLookup(dirs[dp], name);
      if found.Some? {
        var i := dirs[dp][found.value].inum;
        NamedInode(inodes, dirs, linked, place, pending, dp, found.value);
        if kind == File && (inodes[i].kind == File || inodes[i].kind == Device) {
          return Existing(i), found.value;
        }
        return Refused, found.value;
      }
      var off := FreeSlot(dirs[dp]);
      if kind == Dir {
        NewDir(inodes, dirs, linked, place, pending, dp, off, name, n);
        inodes := inodes[n := Inode(Dir, 1)];
        inodes := inodes[dp := inodes[dp].(nlink := inodes[dp].nlink + 1)];
        dirs := dirs[n := [Dirent(n, DOT), Dirent(dp, DOTDOT)]];
        linked, place := linked + {n}, place[n := off];
      } else {
        AddNewFile(inodes, dirs, linked, place, pending, dp, off, name, n, kind);
        inodes := inodes[n := Inode(kind, 1)];
      }
      dirs := dirs[dp := Put(dirs[dp], off, Dirent(n, name))];
      return Created(n), off;
    }

    // The first part of sys_link: count the new link before it exists.
    method LinkStart(i: nat) returns (ok: bool)
      requires Valid() && i in inodes
      modifies `inodes, `pending
      ensures Valid() && (ok <==> old(inodes)[i].kind != Dir)
      ensures !ok ==> inodes == old(inodes) && pending == old(pending)
      ensures ok ==> pending == old(pending) + multiset{i} && inodes == Added(old(inodes), i, 1)
    {
      hide Inv;
      if inodes[i].kind == Dir {
        return false;
      }
      AddPending(inodes, dirs, linked, place, pending, i);
      inodes, pending := inodes[i := inodes[i].(nlink := inodes[i].nlink + 1)], pending + multiset{i};
      return true;
    }

    // The second part: enter the name in directory dp, or take the count back if there is no
    // such directory or the name is taken.
    method LinkFinish(i: nat, dp: Option<nat>, name: string) returns (ok: bool, ghost k: nat)
      requires Valid() && pending[i] > 0 && (dp.Some? ==> dp.value in linked)
      modifies `inodes, `dirs, `pending
      ensures Valid() && pending == old(pending) - multiset{i}
      ensures ok ==>
        && dp.Some? && FreeAt(old(dirs), dp.value, k, name)
        && inodes == old(inodes) && dirs == Entered(old(dirs), dp.value, k, Dirent(i, name))
      ensures !ok ==>
        && (dp.Some? ==> Names(old(dirs), dp.value, k, name))
        && dirs == old(dirs) && Links(old(inodes), i) > 0 && inodes == Added(old(inodes), i, -1)
    {
      hide Inv, Put;
      k := 0;
      DropPending(inodes, dirs, linked, place, pending, i);
      if dp.Some? {
        InvFacts(inodes, dirs, linked, place, pending, dp.value);
        var found := DirLookup(dirs[dp.value], name);
        if found.None? {
          var off := FreeSlot(dirs[dp.value]);
          FinishLink(inodes, dirs, linked, place, pending, dp.value, off, Dirent(i, name));
          dirs, pending := dirs[dp.value := Put(dirs[dp.value], off, Dirent(i, name))], pending - multiset{i};
          return true, off;
        }
        k := found.value;
      }
      inodes, pending := inodes[i := inodes[i].(nlink := inodes[i].nlink - 1)], pending - multiset{i};
      return false, k;
    }

    // sys_unlink of a name in directory dp, removed or not.  The second result false would be the panic on a
    // link count below 1.
    method Unlink(dp: nat, name: string) returns (ok: bool, sound: bool, ghost k: nat)
      requires Valid() && dp in dirs
      modifies this
      ensures Valid() && sound && pending == old(pending)
      ensures !ok ==>
        && inodes == old(inodes) && dirs == old(dirs) && linked == old(linked)
        && (name == DOT || name == DOTDOT || Unused(dirs, dp, name)
            || (Names(dirs, dp, k, name) && KindOf(inodes, Entry(dirs, dp, k).inum) == Dir
                && !EmptyDir(inodes, dirs, Entry(dirs, dp, k))))
      ensures ok ==>
        && name != DOT && name != DOTDOT && Names(old(dirs), dp, k, name) && Unused(dirs, dp, name)
        && dirs == Cleared(old(dirs), dp, k)
        && var e := Entry(old(dirs), dp, k);
          if KindOf(old(inodes), e.inum) == Dir then
            && EmptyDir(old(inodes), old(dirs), e) && linked == old(linked) - {e.inum}
            && inodes == Added(Added(old(inodes), dp, -1), e.inum, -1)
          else linked == old(linked) && inodes == Added(old(inodes), e.inum, -1)
    {
      hide Inv, Refs;
      k := 0;
      if name == DOT || name == DOTDOT {
        return false, true, k;
      }
      var found := DirLookup(dirs[dp], name);
      if found.None? {
        return false, true, k;
      }
      assert dp in linked;
      InvFacts(inodes, dirs, linked, place, pending, dp);
      var off := found.value;
      k := off;
      var i := dirs[dp][off].inum;
      NamedInode(inodes, dirs, linked, place, pending, dp, off);
      if inodes[i].nlink < 1 {
        return false, false, k;
      }
      if inodes[i].kind == Dir {
        var empty := IsDirEmpty(dirs[i]);
        if !empty {
          return false, true, k;
        }
        RemoveDir(inodes, dirs, linked, place, pending, dp, off);
        RemovedEmptied(inodes, dirs, linked, place, pending, dp, off);
        inodes := inodes[dp := inodes[dp].(nlink := inodes[dp].nlink - 1)];
        linked, place := linked - {i}, place - {i};
      } else {
        RemoveFile(inodes, dirs, linked, place, pending, dp, off);
      }
      dirs := dirs[dp := dirs[dp][off := Dirent(0, "")]];
      inodes := inodes[i := inodes[i].(nlink := inodes[i].nlink - 1)];
      return true, true, k;
    }

    // iput of the last reference to an inode without links.
    method Free(i: nat)
      requires Valid() && i in inodes && inodes[i].nlink == 0
      modifies `inodes, `dirs
      ensures Valid() && inodes == old(inodes) - {i} && dirs == old(dirs) - {i} && i !in linked
    {
      hide Inv;
      FreeInode(inodes, dirs, linked, place, pending, i);
      inodes, dirs := inodes - {i}, dirs - {i};
    }
  }

  // Removing an empty directory leaves its dots.
  lemma RemovedEmptied(inodes: map<nat, Inode>, dirs: map<nat, seq<Dirent>>, linked: set<nat>, place: map<nat, nat>,
                       pending: multiset<nat>, d: nat, k: nat)
    requires Inv(inodes, dirs, linked, place, pending) && Emptied(dirs, linked) && d in linked && d in dirs
      && 2 <= k < |dirs[d]|
    requires EmptyDir(inodes, dirs, Entry(dirs, d, k))
    ensures Emptied(Cleared(dirs, d, k), linked - {Entry(dirs, d, k).inum})
  {
    hide Counted, Kinds, Refs, Placed;
    var i := dirs[d][k].inum;
    assert OnlyPlace(inodes, dirs, linked, place, d, k);
  }

  // What an entry that carries a name says about its inode.
  lemma NamedInode(inodes: map<nat, Inode>, dirs: map<nat, seq<Dirent>>, linked: set<nat>, place: map<nat, nat>,
                   pending: multiset<nat>, d: nat, k: nat)
    requires Inv(inodes, dirs, linked, place, pending) && d in linked && d in dirs && k < |dirs[d]|
      && dirs[d][k].inum != 0
    ensures var i := dirs[d][k].inum;
      && i in inodes && (dirs[d][k].name != DOT ==> inodes[i].nlink > 0)
      && (dirs[d][k].name != DOT && dirs[d][k].name != DOTDOT ==> k >= 2)
      && (k >= 2 && inodes[i].kind == Dir ==> i in dirs)
    ensures forall j :: 0 <= j < |dirs[d]| && j != k && dirs[d][j].inum != 0 ==> dirs[d][j].name != dirs[d][k].name
  {
    hide Counted, Kinds, Refs, Placed;
    if dirs[d][k].name != DOT {
      EntryCounted(inodes, dirs, linked, place, pending, d, k);
    }
    if k >= 2 {
      assert OnlyPlace(inodes, dirs, linked, place, d, k);
    }
  }
}
