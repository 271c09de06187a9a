// chmod -R (user/chmod.c): the order in which it visits a tree matters, because changing
// the mode of a directory can make what is below it unreachable (namex in kernel/fs.c).
module RecursiveChmod {

  datatype Mode = Mode(r: bool, w: bool)

  // A symlink-free tree; id stands for the path of a node, and long says that the path
  // reaches MAXPATH.
  datatype Node = Node(id: nat, dir: bool, long: bool, kids: seq<Node>)

  // op is true for + and false for -.
  function Changed(m: Mode, op: bool, bits: Mode): Mode {
    if op then Mode(m.r || bits.r, m.w || bits.w) else Mode(m.r && !bits.r, m.w && !bits.w)
  }

  function Ids(n: Node): set<nat>
    decreases n
  {
    {n.id} + AllIds(n.kids)
  }

  function AllIds(kids: seq<Node>): set<nat>
    decreases kids
  {
    if kids == [] then {} else AllIds(kids[..|kids| - 1]) + Ids(kids[|kids| - 1])
  }

  // No node appears twice.
  predicate Distinct(n: Node)
    decreases n
  {
    n.id !in AllIds(n.kids) && AllDistinct(n.kids)
  }

  predicate AllDistinct(kids: seq<Node>)
    decreases kids
  {
    kids == [] ||
    var last := |kids| - 1;
    AllDistinct(kids[..last]) && Distinct(kids[last]) && AllIds(kids[..last]) !! Ids(kids[last])
  }

  // The modes with those of the nodes in s changed.
  function Applied(modes: map<nat, Mode>, s: set<nat>, op: bool, bits: Mode): (r: map<nat, Mode>)
    ensures r.Keys == modes.Keys
    ensures forall i :: i in modes ==> r[i] == if i in s then Changed(modes[i], op, bits) else modes[i]
  {
    map i | i in modes :: if i in s then Changed(modes[i], op, bits) else modes[i]
  }

  // Which nodes a walk that cannot make directories readable changes, in the order of the
  // source: a node after its children, and nothing more after the first unreadable
  // directory.
  function Walk(n: Node, modes: map<nat, Mode>): (bool, set<nat>)
    decreases n
  {
    if n.dir && (n.id !in modes || !modes[n.id].r) then (false, {})
    else if !n.dir then (true, {n.id})
    else
      var (ok, done) := WalkAll(n.kids, modes);
      (ok, if ok then done + {n.id} else done)
  }

  function WalkAll(kids: seq<Node>, modes: map<nat, Mode>): (bool, set<nat>)
    decreases kids
  {
    if kids == [] then (true, {})
    else
      var (ok, done) := WalkAll(kids[..|kids| - 1], modes);
      if !ok then (false, done)
      else
        var (ok', done') := Walk(kids[|kids| - 1], modes);
        (ok', done + done')
  }

  // Every directory of the tree is readable.
  predicate Readable(n: Node, modes: map<nat, Mode>)
    decreases n
  {
    n.dir ==> n.id in modes && modes[n.id].r && AllReadable(n.kids, modes)
  }

  predicate AllReadable(kids: seq<Node>, modes: map<nat, Mode>)
    decreases kids
  {
    kids == [] || (AllReadable(kids[..|kids| - 1], modes) && Readable(kids[|kids| - 1], modes))
  }

  // Only directories have children.
  predicate Proper(n: Node)
    decreases n
  {
    (!n.dir ==> n.kids == []) && AllProper(n.kids)
  }

  predicate AllProper(kids: seq<Node>)
    decreases kids
  {
    kids == [] || (AllProper(kids[..|kids| - 1]) && Proper(kids[|kids| - 1]))
  }

  // The walk gets through exactly if every directory is readable, and then it changes every
  // node.
  lemma {:induction false} WalkComplete(n: Node, modes: map<nat, Mode>)
    requires Proper(n)
    ensures Walk(n, modes).0 <==> Readable(n, modes)
    ensures Walk(n, modes).0 ==> Walk(n, modes).1 == Ids(n)
    ensures Walk(n, modes).1 <= Ids(n)
    decreases n
  {
    if n.dir && n.id in modes && modes[n.id].r {
      WalkAllComplete(n.kids, modes);
    }
  }

  lemma {:induction false} WalkAllComplete(kids: seq<Node>, modes: map<nat, Mode>)
    requires AllProper(kids)
    ensures WalkAll(kids, modes).0 <==> AllReadable(kids, modes)
    ensures WalkAll(kids, modes).0 ==> WalkAll(kids, modes).1 == AllIds(kids)
    ensures WalkAll(kids, modes).1 <= AllIds(kids)
    decreases kids
  {
    if kids != [] {
      WalkAllComplete(kids[..|kids| - 1], modes);
      WalkComplete(kids[|kids| - 1], modes);
    }
  }

  // a lies on the way from the root of the tree to d, or is d.
  predicate Above(n: Node, a: nat, d: nat)
    decreases n
  {
    (n.id == a && d in Ids(n)) || AnyAbove(n.kids, a, d)
  }

  predicate AnyAbove(kids: seq<Node>, a: nat, d: nat)
    decreases kids
  {
    kids != [] && (AnyAbove(kids[..|kids| - 1], a, d) || Above(kids[|kids| - 1], a, d))
  }

  predicate DirAt(n: Node, d: nat)
    decreases n
  {
    (n.id == d && n.dir) || AnyDirAt(n.kids, d)
  }

  predicate AnyDirAt(kids: seq<Node>, d: nat)
    decreases kids
  {
    kids != [] && (AnyDirAt(kids[..|kids| - 1], d) || DirAt(kids[|kids| - 1], d))
  }

  lemma {:induction false} AboveIds(n: Node, a: nat, d: nat)
    ensures Above(n, a, d) ==> a in Ids(n) && d in Ids(n)
    decreases n
  {
    AnyAboveIds(n.kids, a, d);
  }

  lemma {:induction false} AnyAboveIds(kids: seq<Node>, a: nat, d: nat)
    ensures AnyAbove(kids, a, d) ==> a in AllIds(kids) && d in AllIds(kids)
    decreases kids
  {
    if kids != [] {
      AnyAboveIds(kids[..|kids| - 1], a, d);
      AboveIds(kids[|kids| - 1], a, d);
    }
  }

  lemma {:induction false} DirAtIds(n: Node, d: nat)
    ensures DirAt(n, d) ==> d in Ids(n)
    decreases n
  {
    AnyDirAtIds(n.kids, d);
  }

  lemma {:induction false} AnyDirAtIds(kids: seq<Node>, d: nat)
    ensures AnyDirAt(kids, d) ==> d in AllIds(kids)
    decreases kids
  {
    if kids != [] {
      AnyDirAtIds(kids[..|kids| - 1], d);
      DirAtIds(kids[|kids| - 1], d);
    }
  }

  lemma {:induction false} ReadableDirs(n: Node, modes: map<nat, Mode>, d: nat)
    requires Readable(n, modes) && Proper(n)
    ensures DirAt(n, d) ==> d in modes && modes[d].r
    decreases n
  {
    if n.dir {
      AllReadableDirs(n.kids, modes, d);
    } else {
      assert !AnyDirAt([], d);
    }
  }

  lemma {:induction false} AllReadableDirs(kids: seq<Node>, modes: map<nat, Mode>, d: nat)
    requires AllReadable(kids, modes) && AllProper(kids)
    ensures AnyDirAt(kids, d) ==> d in modes && modes[d].r
    decreases kids
  {
    if kids != [] {
      AllReadableDirs(kids[..|kids| - 1], modes, d);
      ReadableDirs(kids[|kids| - 1], modes, d);
    }
  }

  // A directory that cannot be read keeps every node above it from being changed.
  lemma {:induction false} UnreadableStops(n: Node, modes: map<nat, Mode>, a: nat, d: nat)
    requires Distinct(n) && Proper(n)
    ensures DirAt(n, d) && Above(n, a, d) && !(d in modes && modes[d].r) ==> a !in Walk(n, modes).1
    decreases n
  {
    WalkComplete(n, modes);
    WalkAllComplete(n.kids, modes);
    AnyAboveIds(n.kids, a, d);
    AnyDirAtIds(n.kids, d);
    UnreadableStopsAll(n.kids, modes, a, d);
    if Readable(n, modes) {
      ReadableDirs(n, modes, d);
    }
  }

  lemma {:induction false} UnreadableStopsAll(kids: seq<Node>, modes: map<nat, Mode>, a: nat, d: nat)
    requires AllDistinct(kids) && AllProper(kids)
    ensures AnyDirAt(kids, d) && AnyAbove(kids, a, d) && !(d in modes && modes[d].r) ==> a !in WalkAll(kids, modes).1
    decreases kids
  {
    if kids != [] {
      var front, last := kids[..|kids| - 1], kids[|kids| - 1];
      UnreadableStopsAll(front, modes, a, d);
      UnreadableStops(last, modes, a, d);
      WalkAllComplete(front, modes);
      WalkComplete(last, modes);
      AnyAboveIds(front, a, d);
      AboveIds(last, a, d);
      AnyDirAtIds(front, d);
      DirAtIds(last, d);
    }
  }

  // ---- the limits of the process ----

  // The part of the tree a walk gets to with fds free descriptors.  A directory stays open
  // while its entries are visited; an entry that cannot be opened, because no descriptor is
  // left or its path is too long, is passed over.
  function Trim(n: Node, fds: nat): Node
    decreases n
  {
    n.(kids := if fds <= 1 then [] else TrimAll(n.kids, fds - 1))
  }

  function TrimAll(kids: seq<Node>, fds: nat): seq<Node>
    decreases kids
  {
    if kids == [] then []
    else TrimAll(kids[..|kids| - 1], fds) + if kids[|kids| - 1].long then [] else [Trim(kids[|kids| - 1], fds)]
  }

  lemma {:induction false} TrimFacts(n: Node, fds: nat)
    requires Distinct(n) && Proper(n)
    ensures Distinct(Trim(n, fds)) && Proper(Trim(n, fds)) && Ids(Trim(n, fds)) <= Ids(n)
    decreases n
  {
    if fds > 1 {
      TrimAllFacts(n.kids, fds - 1);
    } else {
      assert AllIds([]) == {};
    }
  }

  lemma {:induction false} TrimAllFacts(kids: seq<Node>, fds: nat)
    requires AllDistinct(kids) && AllProper(kids)
    ensures AllDistinct(TrimAll(kids, fds)) && AllProper(TrimAll(kids, fds))
      && AllIds(TrimAll(kids, fds)) <= AllIds(kids)
    decreases kids
  {
    hide *;
    if kids != [] {
      var front, last := kids[..|kids| - 1], kids[|kids| - 1];
      LastKid(kids, fds);
      TrimAllFacts(front, fds);
      assert TrimAll(front, fds) + [] == TrimAll(front, fds);
      if !last.long {
        TrimFacts(last, fds);
        AddKid(TrimAll(front, fds), Trim(last, fds));
      }
    } else {
      NoKids(kids, fds);
    }
  }

  // What the functions on a sequence of nodes say of its last one.
  lemma LastKid(kids: seq<Node>, fds: nat)
    requires kids != []
    ensures var front, last := kids[..|kids| - 1], kids[|kids| - 1];
      && (AllDistinct(kids) <==> AllDistinct(front) && Distinct(last) && AllIds(front) !! Ids(last))
      && (AllProper(kids) <==> AllProper(front) && Proper(last))
      && AllIds(kids) == AllIds(front) + Ids(last) && Ids(last) != {}
      && TrimAll(kids, fds) == TrimAll(front, fds) + (if last.long then [] else [Trim(last, fds)])
      && (MaxDepth(kids) <= fds <==> MaxDepth(front) <= fds && Depth(last) <= fds)
      && (AllShort(kids) <==> AllShort(front) && !last.long && Short(last))
  {
    assert kids[|kids| - 1].id in Ids(kids[|kids| - 1]);
  }

  lemma AddKid(kids: seq<Node>, n: Node)
    ensures AllIds(kids + [n]) == AllIds(kids) + Ids(n)
    ensures AllDistinct(kids + [n]) <==> AllDistinct(kids) && Distinct(n) && AllIds(kids) !! Ids(n)
    ensures AllProper(kids + [n]) <==> AllProper(kids) && Proper(n)
  {
    assert (kids + [n])[..|kids|] == kids;
  }

  // Levels of the tree.
  function Depth(n: Node): nat
    decreases n
  {
    1 + MaxDepth(n.kids)
  }

  function MaxDepth(kids: seq<Node>): nat
    decreases kids
  {
    if kids == [] then 0
    else var a, b := MaxDepth(kids[..|kids| - 1]), Depth(kids[|kids| - 1]); if a < b then b else a
  }

  // No path below the root is too long.
  predicate Short(n: Node)
    decreases n
  {
    AllShort(n.kids)
  }

  predicate AllShort(kids: seq<Node>)
    decreases kids
  {
    kids == [] || (AllShort(kids[..|kids| - 1]) && !kids[|kids| - 1].long && Short(kids[|kids| - 1]))
  }

  // Nothing is passed over if and only if there is a descriptor for every level and no path
  // is too long.
  lemma {:induction false} TrimNothing(n: Node, fds: nat)
    requires Distinct(n) && Proper(n) && fds > 0
    ensures Ids(Trim(n, fds)) == Ids(n) <==> Depth(n) <= fds && Short(n)
    ensures Depth(n) <= fds && Short(n) ==> Trim(n, fds) == n
    decreases n
  {
    if fds > 1 {
      TrimNoKids(n.kids, fds - 1);
      TrimAllFacts(n.kids, fds - 1);
    } else {
      assert AllIds([]) == {};
      NoKids(n.kids, fds);
    }
  }

  lemma NoKids(kids: seq<Node>, fds: nat)
    ensures AllIds(kids) == {} <==> kids == []
    ensures MaxDepth(kids) == 0 <==> kids == []
    ensures kids == [] ==> AllDistinct(kids) && AllProper(kids) && AllShort(kids) && TrimAll(kids, fds) == []
  {
    if kids != [] {
      assert kids[|kids| - 1].id in Ids(kids[|kids| - 1]);
    }
  }

  lemma {:induction false} TrimNoKids(kids: seq<Node>, fds: nat)
    requires AllDistinct(kids) && AllProper(kids) && fds > 0
    ensures AllIds(TrimAll(kids, fds)) == AllIds(kids) <==> MaxDepth(kids) <= fds && AllShort(kids)
    ensures MaxDepth(kids) <= fds && AllShort(kids) ==> TrimAll(kids, fds) == kids
    decreases kids
  {
    hide *;
    NoKids(kids, fds);
    if kids != [] {
      var front, last := kids[..|kids| - 1], kids[|kids| - 1];
      LastKid(kids, fds);
      TrimNoKids(front, fds);
      TrimNothing(last, fds);
      TrimAllFacts(front, fds);
      TrimFacts(last, fds);
      var t := TrimAll(front, fds);
      if last.long {
        assert TrimAll(kids, fds) == t;
        UnionParts(AllIds(front), AllIds(t), Ids(last), {});
      } else {
        AddKid(t, Trim(last, fds));
        UnionParts(AllIds(front), AllIds(t), Ids(last), Ids(Trim(last, fds)));
        assert kids == front + [last];
      }
    }
  }

  lemma UnionParts(a: set<nat>, a': set<nat>, b: set<nat>, b': set<nat>)
    requires a' <= a && b' <= b && a !! b
    ensures a' + b' == a + b <==> a' == a && b' == b
  {
    if a' + b' == a + b {
      forall x | x in a ensures x in a' { assert x in a' + b'; }
      forall x | x in b ensures x in b' { assert x in a' + b'; }
    }
  }

  lemma TrimStep(kids: seq<Node>, k: nat, fds: nat)
    requires k < |kids|
    ensures TrimAll(kids[..k + 1], fds) == TrimAll(kids[..k], fds) + if kids[k].long then [] else [Trim(kids[k], fds)]
  {
    assert kids[..k + 1][..k] == kids[..k];
  }

  lemma TrimNone(kids: seq<Node>, fds: nat)
    ensures TrimAll(kids[..0], fds) == []
  {
  }

  lemma {:induction false} TrimPrefix(kids: seq<Node>, k: nat, fds: nat)
    requires k <= |kids|
    ensures TrimAll(kids[..k], fds) <= TrimAll(kids, fds)
    decreases |kids| - k
  {
    if k == |kids| {
      assert kids[..k] == kids;
    } else {
      TrimStep(kids, k, fds);
      TrimPrefix(kids, k + 1, fds);
    }
  }

  // ---- the walk of the source ----

  lemma {:induction false} WalkFrame(n: Node, m: map<nat, Mode>, m': map<nat, Mode>)
    requires m.Keys == m'.Keys && forall i :: i in Ids(n) && i in m ==> m'[i] == m[i]
    ensures Walk(n, m') == Walk(n, m)
    decreases n
  {
    WalkAllFrame(n.kids, m, m');
  }

  lemma {:induction false} WalkAllFrame(kids: seq<Node>, m: map<nat, Mode>, m': map<nat, Mode>)
    requires m.Keys == m'.Keys && forall i :: i in AllIds(kids) && i in m ==> m'[i] == m[i]
    ensures WalkAll(kids, m') == WalkAll(kids, m)
    decreases kids
  {
    if kids != [] {
      WalkAllFrame(kids[..|kids| - 1], m, m');
      WalkFrame(kids[|kids| - 1], m, m');
    }
  }

  lemma AppliedTwice(modes: map<nat, Mode>, s: set<nat>, t: set<nat>, op: bool, bits: Mode)
    ensures Applied(Applied(modes, s, op, bits), t, op, bits) == Applied(modes, s + t, op, bits)
    ensures Applied(modes, s, op, bits).Keys == modes.Keys == Applied(modes, s + t, op, bits).Keys
  {
  }

  // The nodes one call changes, and whether it succeeds.
  function Effect(n: Node, modes: map<nat, Mode>, op: bool, bits: Mode): (bool, set<nat>) {
    if op && bits.r then (true, Ids(n)) else Walk(n, modes)
  }

  function EffectAll(kids: seq<Node>, modes: map<nat, Mode>, op: bool, bits: Mode): (bool, set<nat>) {
    if op && bits.r then (true, AllIds(kids)) else WalkAll(kids, modes)
  }

  // Opening a file without access checks succeeds if the directories of its path are
  // readable.
  predicate Reachable(modes: map<nat, Mode>, path: seq<nat>) {
    forall k :: 0 <= k < |path| ==> path[k] in modes && modes[path[k]].r
  }

  // The path stays reachable while nodes below it change.
  lemma ReachableBelow(modes: map<nat, Mode>, s: set<nat>, op: bool, bits: Mode, path: seq<nat>)
    requires forall k :: 0 <= k < |path| ==> path[k] !in s
    ensures Reachable(Applied(modes, s, op, bits), path) <==> Reachable(modes, path)
  {
  }

  lemma {:induction false} KidFacts(kids: seq<Node>, k: nat)
    requires k < |kids| && AllDistinct(kids) && AllProper(kids)
    ensures Distinct(kids[k]) && Proper(kids[k]) && Ids(kids[k]) <= AllIds(kids)
    ensures AllIds(kids[..k]) !! Ids(kids[k]) && AllIds(kids[..k + 1]) == AllIds(kids[..k]) + Ids(kids[k])
    ensures AllIds(kids[..k]) <= AllIds(kids)
    decreases |kids|
  {
    var front := kids[..|kids| - 1];
    assert kids[..k + 1][..k] == kids[..k];
    if k == |kids| - 1 {
      assert kids[..k + 1] == kids;
    } else {
      KidFacts(front, k);
      assert front[..k] == kids[..k] && front[..k + 1] == kids[..k + 1];
    }
  }

  // One more child.
  lemma EffectStep(kids: seq<Node>, k: nat, m: map<nat, Mode>, op: bool, bits: Mode)
    requires k < |kids| && EffectAll(kids[..k], m, op, bits).0
    ensures EffectAll(kids[..k + 1], m, op, bits)
         == var e := Effect(kids[k], m, op, bits); (e.0, EffectAll(kids[..k], m, op, bits).1 + e.1)
  {
    assert kids[..k + 1][..k] == kids[..k];
  }

  // If a child fails, so do all of them together, having changed the same nodes.
  lemma {:induction false} EffectFails(kids: seq<Node>, k: nat, m: map<nat, Mode>, op: bool, bits: Mode)
    requires k <= |kids| && !EffectAll(kids[..k], m, op, bits).0
    ensures EffectAll(kids, m, op, bits) == EffectAll(kids[..k], m, op, bits)
    decreases |kids|
  {
    if k == |kids| {
      assert kids[..k] == kids;
    } else {
      assert kids[..|kids| - 1][..k] == kids[..k];
      EffectFails(kids[..|kids| - 1], k, m, op, bits);
    }
  }

  // What a child changes is the same before and after its siblings have been changed.
  lemma EffectLater(n: Node, m: map<nat, Mode>, s: set<nat>, op: bool, bits: Mode)
    requires s !! Ids(n)
    ensures Effect(n, Applied(m, s, op, bits), op, bits) == Effect(n, m, op, bits)
  {
    WalkFrame(n, m, Applied(m, s, op, bits));
  }

  lemma EffectBounds(kids: seq<Node>, k: nat, m: map<nat, Mode>, op: bool, bits: Mode)
    requires k <= |kids| && AllProper(kids)
    ensures EffectAll(kids[..k], m, op, bits).1 <= AllIds(kids[..k])
  {
    ProperPrefix(kids, k);
    WalkAllComplete(kids[..k], m);
  }

  lemma {:induction false} ProperPrefix(kids: seq<Node>, k: nat)
    requires k <= |kids| && AllProper(kids)
    ensures AllProper(kids[..k])
    decreases |kids|
  {
    if k == |kids| {
      assert kids[..k] == kids;
    } else {
      ProperPrefix(kids[..|kids| - 1], k);
      assert kids[..|kids| - 1][..k] == kids[..k];
    }
  }

  class FileTree {
    var modes: map<nat, Mode>

    // chmod on one file; path holds the directories above it.  It needs a descriptor.
    method ChmodSingle(op: bool, bits: Mode, id: nat, path: seq<nat>, fds: nat) returns (ok: bool)
      requires id in modes
      modifies this
      ensures ok == (fds > 0 && Reachable(old(modes), path))
      ensures modes == if ok then Applied(old(modes), {id}, op, bits) else old(modes)
    {
      if fds == 0 || !Reachable(modes, path) {
        return false;
      }
      modes := modes[id := Changed(modes[id], op, bits)];
      assert modes == Applied(old(modes), {id}, op, bits);
      return true;
    }

    // chmod_recursive on the tree n, with fds free descriptors.
    method Chmod(op: bool, bits: Mode, n: Node, path: seq<nat>, fds: nat) returns (ok: bool)
      requires Distinct(n) && Proper(n) && Ids(n) <= modes.Keys && forall k :: 0 <= k < |path| ==> path[k] !in Ids(n)
      modifies this
      ensures fds == 0 || !Reachable(old(modes), path) ==> !ok && modes == old(modes)
      ensures fds > 0 && Reachable(old(modes), path) ==>
        var e := Effect(Trim(n, fds), old(modes), op, bits); ok == e.0 && modes == Applied(old(modes), e.1, op, bits)
      decreases n, 1
    {
      hide Distinct, Proper, Effect, EffectAll, Applied, Reachable, Ids, AllIds, TrimAll;
      if fds == 0 || !Reachable(modes, path) {
        return false;
      }
      ghost var m0, t := modes, Trim(n, fds);
      TrimFacts(n, fds);
      NodeFacts(t, m0, op, bits);
      if n.dir && !op && !modes[n.id].r {
        return false;
      }
      if n.dir {
        if !modes[n.id].r {
          if op && bits.r {
            var added := ChmodSingle(true, Mode(true, false), n.id, path, fds);
          } else {
            return false;
          }
        }
        ghost var m1 := modes;
        Prepare(m0, m1, t, op, bits, path);
        ok := ChmodKids(op, bits, n, path, fds - 1, m0);
        FinishDir(t, m0, m1, op, bits, path);
        if !ok {
          return;
        }
      }
      var done := ChmodSingle(op, bits, n.id, path, fds);
      return true;
    }

    // The loop of chmod_recursive over the entries of a directory, which stays open.
    method ChmodKids(op: bool, bits: Mode, n: Node, path: seq<nat>, fds: nat,
                     ghost m0: map<nat, Mode>) returns (ok: bool)
      requires Distinct(n) && Proper(n) && Ids(n) <= modes.Keys && forall k :: 0 <= k < |path| ==> path[k] !in Ids(n)
      requires Reachable(modes, path + [n.id]) && SameBelow(m0, modes, n.id)
      modifies this
      ensures var e := EffectAll(Trim(n, fds + 1).kids, m0, op, bits);
        ok == e.0 && modes == Applied(old(modes), e.1, op, bits)
      decreases n, 0
    {
      hide Effect, EffectAll, Applied, Reachable, Distinct, Proper, SameBelow, Ids, AllIds, TrimAll;
      TrimNone(n.kids, fds);
      ghost var m1, t := modes, Trim(n, fds + 1);
      TrimFacts(n, fds + 1);
      KidsStart(t, m1, m0, op, bits);
      var k := 0;
      ghost var j := 0;
      while k < |n.kids|
        invariant k <= |n.kids| && modes.Keys == m1.Keys && j <= |t.kids|
        invariant t.kids[..j] == if fds == 0 then [] else TrimAll(n.kids[..k], fds)
        invariant EffectAll(t.kids[..j], m0, op, bits).0
        invariant modes == Applied(m1, EffectAll(t.kids[..j], m0, op, bits).1, op, bits)
      {
        if fds > 0 && !n.kids[k].long {
          NextKid(n, k, j, fds);
          BeforeKid(t, j, m0, m1, op, bits, path);
          KidOf(n, k, path, m1);
          var sub := Chmod(op, bits, n.kids[k], path + [n.id], fds);
          AfterKid(t, j, m0, m1, op, bits);
          if !sub {
            return false;
          }
          j := j + 1;
        } else if fds > 0 {
          TrimStep(n.kids, k, fds);
        }
        k := k + 1;
      }
      assert n.kids[..k] == n.kids && t.kids[..j] == t.kids;
      return true;
    }
  }

  // The kid at k is the next one of the trimmed tree.
  lemma NextKid(n: Node, k: nat, j: nat, fds: nat)
    requires k < |n.kids| && fds > 0 && !n.kids[k].long
    requires var t := Trim(n, fds + 1); j <= |t.kids| && t.kids[..j] == TrimAll(n.kids[..k], fds)
    ensures var t := Trim(n, fds + 1);
      j < |t.kids| && t.kids[j] == Trim(n.kids[k], fds) && t.kids[..j + 1] == TrimAll(n.kids[..k + 1], fds)
  {
    hide TrimAll;
    TrimStep(n.kids, k, fds);
    TrimPrefix(n.kids, k + 1, fds);
  }

  lemma KidOf(n: Node, k: nat, path: seq<nat>, m: map<nat, Mode>)
    requires Distinct(n) && Proper(n) && k < |n.kids| && Ids(n) <= m.Keys && forall i :: 0 <= i < |path| ==>
      path[i] !in Ids(n)
    ensures Distinct(n.kids[k]) && Proper(n.kids[k]) && Ids(n.kids[k]) <= m.Keys
    ensures forall i :: 0 <= i < |path + [n.id]| ==> (path + [n.id])[i] !in Ids(n.kids[k])
  {
    KidFacts(n.kids, k);
  }

  // The modes agree except at one node.
  ghost predicate SameBelow(m0: map<nat, Mode>, m1: map<nat, Mode>, id: nat) {
    m1.Keys == m0.Keys && forall i :: i in m0 && i != id ==> m1[i] == m0[i]
  }

  lemma NodeFacts(n: Node, m0: map<nat, Mode>, op: bool, bits: Mode)
    requires Distinct(n) && Proper(n) && Ids(n) <= m0.Keys
    ensures n.id in m0 && n.id in Ids(n)
    ensures n.dir && !m0[n.id].r && !(op && bits.r) ==>
      Effect(n, m0, op, bits) == (false, {}) && Applied(m0, {}, op, bits) == m0
    ensures !n.dir ==> Effect(n, m0, op, bits) == (true, {n.id})
  {
    if !n.dir {
      assert n.kids == [] && AllIds(n.kids) == {};
      assert Ids(n) == {n.id};
    }
  }

  lemma Prepare(m0: map<nat, Mode>, m1: map<nat, Mode>, n: Node, op: bool, bits: Mode, path: seq<nat>)
    requires Ids(n) <= m0.Keys && n.id in Ids(n) && Reachable(m0, path) && forall k :: 0 <= k < |path| ==>
      path[k] !in Ids(n)
    requires m1 == m0 || m1 == Applied(m0, {n.id}, true, Mode(true, false))
    requires n.id in m1 && (m0[n.id].r ==> m1 == m0)
      && (!m0[n.id].r ==> m1 == Applied(m0, {n.id}, true, Mode(true, false)))
    ensures Ids(n) <= m1.Keys && Reachable(m1, path + [n.id]) && SameBelow(m0, m1, n.id)
  {
    hide Ids;
    var p := path + [n.id];
    forall k | 0 <= k < |p| ensures p[k] in m1 && m1[p[k]].r {
      if k < |path| {
        assert path[k] in m0;
      }
    }
  }

  // After the children, the directory itself.
  lemma FinishDir(n: Node, m0: map<nat, Mode>, m1: map<nat, Mode>, op: bool, bits: Mode, path: seq<nat>)
    requires Distinct(n) && Proper(n) && Ids(n) <= m0.Keys && n.dir && n.id in m0 && Reachable(m0, path)
    requires forall k :: 0 <= k < |path| ==> path[k] !in Ids(n)
    requires if m0[n.id].r then m1 == m0 else op && bits.r && m1 == Applied(m0, {n.id}, true, Mode(true, false))
    ensures var e := EffectAll(n.kids, m0, op, bits);
      && Effect(n, m0, op, bits) == (e.0, if e.0 then e.1 + {n.id} else e.1)
      && Reachable(Applied(m1, e.1, op, bits), path) && n.id in Applied(m1, e.1, op, bits)
      && Applied(Applied(m1, e.1, op, bits), {n.id}, op, bits) == Applied(m0, e.1 + {n.id}, op, bits)
      && (!e.0 ==> Applied(m1, e.1, op, bits) == Applied(m0, e.1, op, bits))
  {
    var e := EffectAll(n.kids, m0, op, bits);
    EffectBounds(n.kids, |n.kids|, m0, op, bits);
    assert n.kids[..|n.kids|] == n.kids;
    assert {n.id} + AllIds(n.kids) == AllIds(n.kids) + {n.id};
    AppliedTwice(m1, e.1, {n.id}, op, bits);
    var a, b := Applied(m1, e.1 + {n.id}, op, bits), Applied(m0, e.1 + {n.id}, op, bits);
    assert a.Keys == b.Keys;
    assert forall i :: i in m0 ==> a[i] == b[i];
    assert a == b;
    var m2 := Applied(m1, e.1, op, bits);
    forall k | 0 <= k < |path| ensures path[k] in m2 && m2[path[k]].r {
      assert path[k] in m0;
    }
  }

  lemma KidsStart(n: Node, m1: map<nat, Mode>, m0: map<nat, Mode>, op: bool, bits: Mode)
    ensures EffectAll(n.kids[..0], m0, op, bits) == (true, {}) && Applied(m1, {}, op, bits) == m1
  {
    assert n.kids[..0] == [];
  }

  lemma BeforeKid(n: Node, k: nat, m0: map<nat, Mode>, m1: map<nat, Mode>, op: bool, bits: Mode, path: seq<nat>)
    requires Distinct(n) && Proper(n) && Ids(n) <= m1.Keys && k < |n.kids| && SameBelow(m0, m1, n.id)
    requires Reachable(m1, path + [n.id]) && forall j :: 0 <= j < |path| ==> path[j] !in Ids(n)
    ensures var kid, s := n.kids[k], EffectAll(n.kids[..k], m0, op, bits).1;
      && Distinct(kid) && Proper(kid) && Ids(kid) <= Applied(m1, s, op, bits).Keys
      && (forall j :: 0 <= j < |path + [n.id]| ==> (path + [n.id])[j] !in Ids(kid))
      && Reachable(Applied(m1, s, op, bits), path + [n.id])
      && Effect(kid, Applied(m1, s, op, bits), op, bits) == Effect(kid, m0, op, bits)
  {
    hide Walk, WalkAll, Reachable, Applied;
    var kid, s := n.kids[k], EffectAll(n.kids[..k], m0, op, bits).1;
    KidFacts(n.kids, k);
    EffectBounds(n.kids, k, m0, op, bits);
    AppliedTwice(m1, s, {}, op, bits);
    ReachableBelow(m1, s, op, bits, path + [n.id]);
    EffectLater(kid, m1, s, op, bits);
    WalkFrame(kid, m0, m1);
  }

  lemma AfterKid(n: Node, k: nat, m0: map<nat, Mode>, m1: map<nat, Mode>, op: bool, bits: Mode)
    requires k < |n.kids| && EffectAll(n.kids[..k], m0, op, bits).0
    ensures var e, s := Effect(n.kids[k], m0, op, bits), EffectAll(n.kids[..k], m0, op, bits).1;
      && EffectAll(n.kids[..k + 1], m0, op, bits) == (e.0, s + e.1)
      && Applied(Applied(m1, s, op, bits), e.1, op, bits) == Applied(m1, s + e.1, op, bits)
      && Applied(m1, s + e.1, op, bits).Keys == m1.Keys
      && (!e.0 ==> EffectAll(n.kids, m0, op, bits) == (false, s + e.1))
  {
    hide Walk, WalkAll, Applied;
    var e, s := Effect(n.kids[k], m0, op, bits), EffectAll(n.kids[..k], m0, op, bits).1;
    EffectStep(n.kids, k, m0, op, bits);
    AppliedTwice(m1, s, e.1, op, bits);
    if !e.0 {
      EffectFails(n.kids, k + 1, m0, op, bits);
    }
  }

  // What chmod -R does with fds free descriptors.  Every node is changed if and only if there
  // is a descriptor for every level, no path is too long, and every directory is readable or
  // being made so.  Adding r always reports success, with what is passed over left as it was;
  // otherwise success means that every directory it got to was readable.  The bits given are
  // set after + and clear after - at every node changed, and no other bit has changed.
  lemma ChmodLaw(n: Node, modes: map<nat, Mode>, op: bool, bits: Mode, fds: nat)
    requires Distinct(n) && Proper(n) && fds > 0
    ensures var e, t := Effect(Trim(n, fds), modes, op, bits), Trim(n, fds);
      && (e.1 == Ids(n) <==> Depth(n) <= fds && Short(n) && ((op && bits.r) || Readable(n, modes)))
      && (e.0 <==> (op && bits.r) || Readable(t, modes))
      && (e.0 ==> e.1 == Ids(t))
    ensures var e := Effect(Trim(n, fds), modes, op, bits);
      var after := Applied(modes, e.1, op, bits);
      forall i :: i in modes ==>
        && i in after && after[i].r == (if i in e.1 && bits.r then op else modes[i].r)
        && after[i].w == (if i in e.1 && bits.w then op else modes[i].w)
  {
    var t := Trim(n, fds);
    TrimFacts(n, fds);
    TrimNothing(n, fds);
    WalkComplete(t, modes);
    if !Readable(t, modes) {
      WalkLeaves(t, modes);
    }
  }

  // A walk that fails leaves its root alone.
  lemma WalkLeaves(n: Node, modes: map<nat, Mode>)
    requires Distinct(n) && Proper(n) && !Walk(n, modes).0
    ensures n.id in Ids(n) && n.id !in Walk(n, modes).1
  {
    WalkAllComplete(n.kids, modes);
  }
}
