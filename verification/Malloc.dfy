// The storage allocator of user/umalloc.c (The C Programming Language, second edition,
// section 8.7).  Addresses count headers of 16 bytes; the static header `base` is at 0,
// below everything that sbrk returns.
module Malloc {
  import opened Wrappers

  const BASE: nat := 0
  const HEADER: nat := 16
  const MIN_CORE: nat := 4096

  // ---- the free list ----

  function Succ(list: seq<nat>, i: nat): nat
    requires i < |list|
  {
    if i + 1 < |list| then list[i + 1] else list[0]
  }

  ghost predicate Increasing(list: seq<nat>) {
    forall i, j :: 0 <= i < j < |list| ==> list[i] < list[j]
  }

  // The links run through list in order and back to its start.
  ghost predicate Ring(list: seq<nat>, ptr: map<nat, nat>) {
    && |list| > 0 && list[0] == BASE && Increasing(list)
    && forall i: nat :: i < |list| ==> Points(list, ptr, i)
  }

  predicate Points(list: seq<nat>, ptr: map<nat, nat>, i: nat)
    requires i < |list|
  {
    list[i] in ptr && ptr[list[i]] == Succ(list, i)
  }

  ghost function Elems(list: seq<nat>): (r: set<nat>)
    ensures forall x: nat :: x in r <==> x in list
  {
    set x | x in list
  }

  // Every unit obtained from sbrk lies in exactly one block, the one own names.
  ghost predicate Tiling(blocks: set<nat>, size: map<nat, nat>, own: map<nat, nat>) {
    && (forall a :: a in blocks ==> a in size && size[a] > 0)
    && (forall u :: u in own ==> own[u] in blocks && Covers(size, own[u], u))
    && (forall a: nat, u: nat :: a in blocks && Covers(size, a, u) ==> u in own && own[u] == a)
  }

  // Unit u lies in the block at a.
  predicate Covers(size: map<nat, nat>, a: nat, u: nat) {
    a in size && a <= u < a + size[a]
  }

  // The blocks are the free ones and those in use.
  ghost predicate Blocks(list: seq<nat>, size: map<nat, nat>, live: set<nat>, own: map<nat, nat>) {
    && BASE in size && size[BASE] == 0 && BASE !in own && BASE !in live && Elems(list) !! live
    && Tiling(Elems(list) - {BASE} + live, size, own)
  }

  // Adjacent free blocks have been merged, except perhaps at elements e and f.
  ghost predicate CoalescedBut(list: seq<nat>, size: map<nat, nat>, e: int, f: int) {
    forall i: nat :: 0 < i && i + 1 < |list| && i != e && i != f ==> Gap(list, size, i)
  }

  // Element i ends before the next one begins.
  predicate Gap(list: seq<nat>, size: map<nat, nat>, i: nat)
    requires i + 1 < |list|
  {
    list[i] in size && list[i] + size[list[i]] < list[i + 1]
  }

  ghost predicate Coalesced(list: seq<nat>, size: map<nat, nat>) {
    CoalescedBut(list, size, -1, -1)
  }

  // A block in use joins the list.
  function Inserted(list: seq<nat>, j: nat, b: nat): (r: seq<nat>)
    requires j < |list|
    ensures |r| == |list| + 1
    ensures forall i :: 0 <= i < |r| ==> r[i] == if i <= j then list[i] else if i == j + 1 then b else list[i - 1]
  {
    list[..j + 1] + [b] + list[j + 1..]
  }

  function Without(list: seq<nat>, k: nat): (r: seq<nat>)
    requires k < |list|
    ensures |r| == |list| - 1
    ensures forall i :: 0 <= i < |r| ==> r[i] == if i < k then list[i] else list[i + 1]
  {
    list[..k] + list[k + 1..]
  }

  // The place of b in the list: after its jth element.
  ghost predicate Place(list: seq<nat>, j: nat, b: nat) {
    j < |list| && list[j] < b && (j + 1 < |list| ==> b < list[j + 1])
  }

  lemma InsertedElems(list: seq<nat>, j: nat, b: nat)
    requires j < |list|
    ensures Elems(Inserted(list, j, b)) == Elems(list) + {b}
  {
    assert list == list[..j + 1] + list[j + 1..];
  }

  lemma WithoutElems(list: seq<nat>, i: nat)
    requires i < |list| && Increasing(list)
    ensures Elems(Without(list, i)) == Elems(list) - {list[i]}
  {
    assert list == list[..i] + [list[i]] + list[i + 1..];
    assert list[i] !in list[..i] && list[i] !in list[i + 1..];
  }

  // Two blocks do not overlap.
  lemma Disjoint(blocks: set<nat>, size: map<nat, nat>, own: map<nat, nat>, a: nat, b: nat)
    requires Tiling(blocks, size, own) && a in blocks && b in blocks && a < b
    ensures a + size[a] <= b
  {
    assert Covers(size, b, b);
    assert !Covers(size, a, b);
  }

  ghost function Reowned(own: map<nat, nat>, a: nat, b: nat): (r: map<nat, nat>)
    ensures r.Keys == own.Keys
  {
    map u | u in own :: if own[u] == b then a else own[u]
  }

  // Two adjacent blocks become one.
  lemma MergeTiles(blocks: set<nat>, size: map<nat, nat>, own: map<nat, nat>, a: nat, b: nat)
    requires Tiling(blocks, size, own) && a in blocks && b in blocks && a + size[a] == b
    ensures Tiling(blocks - {b}, size[a := size[a] + size[b]], Reowned(own, a, b))
  {
    var size', own' := size[a := size[a] + size[b]], Reowned(own, a, b);
    forall x: nat, u: nat | x in blocks - {b} && Covers(size', x, u) ensures u in own' && own'[u] == x {
      assert if x == a && u >= b then Covers(size, b, u) else Covers(size, x, u);
    }
    forall u | u in own' ensures own'[u] in blocks - {b} && Covers(size', own'[u], u) {
      assert Covers(size, own[u], u);
    }
  }

  // ---- free ----

  // Where the search of free stops.
  predicate Stops(p: nat, next: nat, b: nat) {
    (b > p && b < next) || (p >= next && (b > p || b < next))
  }

  // There is one place for every block.
  lemma FindPlace(list: seq<nat>, b: nat) returns (j: nat)
    requires |list| > 0 && list[0] == BASE && Increasing(list) && b !in list && b > BASE
    ensures Place(list, j, b)
    ensures forall i: nat :: Place(list, i, b) ==> i == j
  {
    j := 0;
    while j + 1 < |list| && list[j + 1] < b
      invariant j < |list| && list[j] < b
    {
      j := j + 1;
    }
    forall i: nat | Place(list, i, b) ensures i == j {
      if i < j {
      } else if j < i {
      }
    }
    if j + 1 < |list| {
      assert list[j + 1] in list;
    }
  }

  lemma InsertedIncreasing(list: seq<nat>, j: nat, b: nat)
    requires Increasing(list) && Place(list, j, b)
    ensures Increasing(Inserted(list, j, b)) && b !in list
  {
    assert forall i :: 0 <= i < |list| ==> if i <= j then list[i] <= list[j] else list[j + 1] <= list[i];
  }

  lemma RingInsert(list: seq<nat>, ptr: map<nat, nat>, j: nat, b: nat)
    requires Ring(list, ptr) && Place(list, j, b)
    ensures Ring(Inserted(list, j, b), ptr[b := Succ(list, j)][list[j] := b])
  {
    hide Increasing;
    InsertedIncreasing(list, j, b);
    var r, ptr' := Inserted(list, j, b), ptr[b := Succ(list, j)][list[j] := b];
    forall i: nat | i < |r| ensures Points(r, ptr', i) {
      if i != j && i != j + 1 {
        var k := if i < j then i else i - 1;
        assert r[i] == list[k] && list[k] in list;
        Distinct(list, k, j);
        assert Points(list, ptr, k);
      }
    }
  }

  lemma Distinct(list: seq<nat>, i: nat, j: nat)
    requires Increasing(list) && i < |list| && j < |list| && i != j
    ensures list[i] != list[j]
  {
    assert if i < j then list[i] < list[j] else list[j] < list[i];
  }

  lemma RingRemove(list: seq<nat>, ptr: map<nat, nat>, i: nat)
    requires Ring(list, ptr) && 0 < i < |list|
    ensures list[i] in ptr
    ensures Ring(Without(list, i), ptr[list[i - 1] := ptr[list[i]]])
  {
    assert Points(list, ptr, i);
    var r, ptr' := Without(list, i), ptr[list[i - 1] := ptr[list[i]]];
    assert Points(list, ptr, i);
    forall n: nat | n < |r| ensures Points(r, ptr', n) {
      var k := if n < i then n else n + 1;
      assert r[n] == list[k] && Points(list, ptr, k);
      if k != i - 1 {
        Distinct(list, k, i - 1);
      }
    }
  }

  lemma BlocksInsert(list: seq<nat>, size: map<nat, nat>, live: set<nat>, own: map<nat, nat>, j: nat, b: nat)
    requires Blocks(list, size, live, own) && j < |list| && b in live
    ensures Blocks(Inserted(list, j, b), size, live - {b}, own)
  {
    hide Tiling, Inserted;
    InsertedElems(list, j, b);
    assert Elems(Inserted(list, j, b)) - {BASE} + (live - {b}) == Elems(list) - {BASE} + live;
  }

  lemma BlocksMerge(list: seq<nat>, size: map<nat, nat>, live: set<nat>, own: map<nat, nat>, i: nat)
    requires Blocks(list, size, live, own) && Increasing(list) && 0 < i && i + 1 < |list| && list[0] == BASE
    requires list[i] in size && list[i] + size[list[i]] == list[i + 1]
    ensures list[i + 1] in size
    ensures var a, b := list[i], list[i + 1];
      Blocks(Without(list, i + 1), size[a := size[a] + size[b]], live, Reowned(own, a, b))
  {
    hide Without, Reowned;
    var a, b := list[i], list[i + 1];
    WithoutElems(list, i + 1);
    MergeTiles(Elems(list) - {BASE} + live, size, own, a, b);
    assert Elems(list) - {BASE} + live - {b} == Elems(list) - {b} - {BASE} + live;
  }

  lemma GapsInsert(list: seq<nat>, size: map<nat, nat>, j: nat, b: nat)
    requires Coalesced(list, size) && j < |list|
    ensures CoalescedBut(Inserted(list, j, b), size, j, j + 1)
  {
    var list' := Inserted(list, j, b);
    forall i: nat | 0 < i && i + 1 < |list'| && i != j && i != j + 1 ensures Gap(list', size, i) {
      assert Gap(list, size, if i < j then i else i - 1);
    }
  }

  // Merging closes the gap at i, if the gap after it was open.
  lemma GapsMerge(list: seq<nat>, size: map<nat, nat>, i: nat, e: int)
    requires CoalescedBut(list, size, e, i) && e < i && Increasing(list) && 0 < i && i + 1 < |list|
    requires list[i] in size && list[i + 1] in size && list[i] + size[list[i]] == list[i + 1]
    ensures CoalescedBut(Without(list, i + 1), size[list[i] := size[list[i]] + size[list[i + 1]]], e, -1)
  {
    var list', size' := Without(list, i + 1), size[list[i] := size[list[i]] + size[list[i + 1]]];
    forall k: nat | 0 < k && k + 1 < |list'| && k != e ensures Gap(list', size', k) {
      if k < i {
        assert Gap(list, size, k) && list[k] < list[i];
      } else {
        assert Gap(list, size, k + 1) && list[i] < list[k + 1];
      }
    }
  }

  // Blocks that do not touch leave a gap.
  lemma GapsApart(list: seq<nat>, size: map<nat, nat>, live: set<nat>, own: map<nat, nat>, i: nat, e: int)
    requires CoalescedBut(list, size, e, i) && Blocks(list, size, live, own) && Increasing(list) && |list| > 0
      && list[0] == BASE
    requires 0 < i && i + 1 < |list| && list[i] in size ==> list[i] + size[list[i]] != list[i + 1]
    ensures CoalescedBut(list, size, e, -1)
  {
    if 0 < i && i + 1 < |list| {
      assert list[i] in list && list[i + 1] in list && list[i] > BASE;
      Disjoint(Elems(list) - {BASE} + live, size, own, list[i], list[i + 1]);
    }
  }

  // The heap, fully merged except perhaps at elements e and f of the list.
  ghost predicate Near(list: seq<nat>, ptr: map<nat, nat>, size: map<nat, nat>, live: set<nat>, own: map<nat, nat>,
                       e: int, f: int) {
    Ring(list, ptr) && Blocks(list, size, live, own) && CoalescedBut(list, size, e, f)
  }

  lemma NearInsert(list: seq<nat>, ptr: map<nat, nat>, size: map<nat, nat>, live: set<nat>, own: map<nat, nat>,
                   j: nat, b: nat)
    requires Near(list, ptr, size, live, own, -1, -1) && Place(list, j, b) && b in live
    ensures Near(Inserted(list, j, b), ptr[b := Succ(list, j)][list[j] := b], size, live - {b}, own, j, j + 1)
  {
    hide Blocks, CoalescedBut;
    RingInsert(list, ptr, j, b);
    BlocksInsert(list, size, live, own, j, b);
    GapsInsert(list, size, j, b);
  }

  lemma NearMerge(list: seq<nat>, ptr: map<nat, nat>, size: map<nat, nat>, live: set<nat>, own: map<nat, nat>, i: nat,
                  e: int)
    requires Near(list, ptr, size, live, own, e, i) && e < i && 0 < i && i + 1 < |list|
    requires list[i] in size && list[i] + size[list[i]] == list[i + 1]
    ensures list[i + 1] in size && list[i + 1] in ptr
    ensures var a, b := list[i], list[i + 1];
      Near(Without(list, i + 1), ptr[a := ptr[b]], size[a := size[a] + size[b]], live, Reowned(own, a, b), e, -1)
  {
    hide Ring, Blocks, CoalescedBut, Increasing, Reowned, Without;
    RingStart(list, ptr, i + 1);
    RingRemove(list, ptr, i + 1);
    BlocksMerge(list, size, live, own, i);
    GapsMerge(list, size, i, e);
  }

  lemma RingNext(list: seq<nat>, ptr: map<nat, nat>, k: nat)
    requires Ring(list, ptr) && k < |list|
    ensures list[k] in ptr && ptr[list[k]] == Succ(list, k)
  {
    assert Points(list, ptr, k);
  }

  lemma RingStart(list: seq<nat>, ptr: map<nat, nat>, k: nat)
    requires Ring(list, ptr) && k < |list|
    ensures list[0] == BASE && Increasing(list) && list[k] in ptr
  {
    assert Points(list, ptr, k);
  }

  lemma NearSwap(list: seq<nat>, ptr: map<nat, nat>, size: map<nat, nat>, live: set<nat>, own: map<nat, nat>, e: int)
    requires Near(list, ptr, size, live, own, e, -1)
    ensures Near(list, ptr, size, live, own, -1, e)
  {
  }

  lemma NearApart(list: seq<nat>, ptr: map<nat, nat>, size: map<nat, nat>, live: set<nat>, own: map<nat, nat>, i: nat,
                  e: int)
    requires Near(list, ptr, size, live, own, e, i)
    requires 0 < i && i + 1 < |list| && list[i] in size ==> list[i] + size[list[i]] != list[i + 1]
    ensures Near(list, ptr, size, live, own, e, -1)
  {
    GapsApart(list, size, live, own, i, e);
  }

  lemma ListBlock(list: seq<nat>, size: map<nat, nat>, live: set<nat>, own: map<nat, nat>, i: nat)
    requires Blocks(list, size, live, own) && i < |list|
    ensures list[i] in size && (list[i] != BASE ==> size[list[i]] > 0) && list[i] !in live
    ensures BASE in size && size[BASE] == 0
  {
    assert list[i] in Elems(list);
  }

  function Distance(i: nat, j: nat, n: nat): nat
    requires i < n && j < n
  {
    if i <= j then j - i else j + n - i
  }

  // ---- malloc ----

  // A new block above all others.
  ghost function Claimed(own: map<nat, nat>, a: nat, n: nat): (r: map<nat, nat>)
    ensures forall u: nat :: u in r <==> u in own || a <= u < a + n
    ensures forall u :: u in r ==> r[u] == if a <= u < a + n then a else own[u]
  {
    if n == 0 then own else Claimed(own, a, n - 1)[a + n - 1 := a]
  }

  lemma GrowTiles(blocks: set<nat>, size: map<nat, nat>, own: map<nat, nat>, a: nat, n: nat)
    requires Tiling(blocks, size, own) && n > 0 && forall u :: u in own ==> u < a
    ensures Tiling(blocks + {a}, size[a := n], Claimed(own, a, n))
  {
    var size', own' := size[a := n], Claimed(own, a, n);
    assert a !in blocks by {
      if a in blocks {
        assert Covers(size, a, a);
      }
    }
    forall x: nat, u: nat | x in blocks + {a} && Covers(size', x, u) ensures u in own' && own'[u] == x {
      if x != a {
        assert Covers(size, x, u);
      }
    }
    forall u | u in own' ensures own'[u] in blocks + {a} && Covers(size', own'[u], u) {
      if u in own {
        assert Covers(size, own[u], u);
      }
    }
  }

  // The last n units of a block become a block of their own.
  ghost function Cut(own: map<nat, nat>, a: nat, q: nat): (r: map<nat, nat>)
    ensures r.Keys == own.Keys
    ensures forall u :: u in own ==> r[u] == if own[u] == a && u >= q then q else own[u]
  {
    map u | u in own :: if own[u] == a && u >= q then q else own[u]
  }

  lemma SplitTiles(blocks: set<nat>, size: map<nat, nat>, own: map<nat, nat>, a: nat, n: nat)
    requires Tiling(blocks, size, own) && a in blocks && 0 < n < size[a]
    ensures var q := a + size[a] - n;
      q !in blocks && Tiling(blocks + {q}, size[a := size[a] - n][q := n], Cut(own, a, q))
  {
    var q := a + size[a] - n;
    var size', own' := size[a := size[a] - n][q := n], Cut(own, a, q);
    assert Covers(size, a, q);
    assert q !in blocks by {
      if q in blocks {
        assert Covers(size, q, q);
      }
    }
    forall x: nat, u: nat | x in blocks + {q} && Covers(size', x, u) ensures u in own' && own'[u] == x {
      assert Covers(size, if x == q then a else x, u);
    }
    forall u | u in own' ensures own'[u] in blocks + {q} && Covers(size', own'[u], u) {
      assert Covers(size, own[u], u);
    }
  }

  // Taking a whole block off the list.
  lemma NearUnlink(list: seq<nat>, ptr: map<nat, nat>, size: map<nat, nat>, live: set<nat>, own: map<nat, nat>, i: nat)
    requires Near(list, ptr, size, live, own, -1, -1) && 0 < i < |list|
    ensures list[i] in ptr && list[i] !in live
    ensures Near(Without(list, i), ptr[list[i - 1] := ptr[list[i]]], size, live + {list[i]}, own, -1, -1)
  {
    hide Blocks, CoalescedBut, Without;
    RingStart(list, ptr, i);
    RingStart(list, ptr, 0);
    RingRemove(list, ptr, i);
    BlocksUnlink(list, size, live, own, i);
    GapsUnlink(list, size, i);
  }

  lemma BlocksUnlink(list: seq<nat>, size: map<nat, nat>, live: set<nat>, own: map<nat, nat>, i: nat)
    requires Blocks(list, size, live, own) && Increasing(list) && i < |list| && list[i] != BASE
    ensures list[i] !in live && Blocks(Without(list, i), size, live + {list[i]}, own)
  {
    hide Tiling;
    WithoutElems(list, i);
    assert list[i] in Elems(list);
    assert Elems(Without(list, i)) - {BASE} + (live + {list[i]}) == Elems(list) - {BASE} + live;
  }

  lemma GapsUnlink(list: seq<nat>, size: map<nat, nat>, i: nat)
    requires Coalesced(list, size) && Increasing(list) && 0 < i < |list|
    ensures Coalesced(Without(list, i), size)
  {
    var list' := Without(list, i);
    forall k: nat | 0 < k && k + 1 < |list'| ensures Gap(list', size, k) {
      assert Gap(list, size, if k < i then k else k + 1);
      if k == i - 1 {
        assert list[i] < list[i + 1];
      }
    }
  }

  lemma BlocksSplit(list: seq<nat>, size: map<nat, nat>, live: set<nat>, own: map<nat, nat>, a: nat, n: nat)
    requires Blocks(list, size, live, own) && a in Elems(list) && a != BASE && a in size && 0 < n < size[a]
    ensures var q := a + size[a] - n;
      q !in live && q !in Elems(list) && Blocks(list, size[a := size[a] - n][q := n], live + {q}, Cut(own, a, q))
  {
    hide Tiling;
    var q := a + size[a] - n;
    SplitTiles(Elems(list) - {BASE} + live, size, own, a, n);
    SameUnits(own, a, q);
    assert Elems(list) - {BASE} + (live + {q}) == Elems(list) - {BASE} + live + {q};
  }

  lemma SameUnits(own: map<nat, nat>, a: nat, b: nat)
    ensures Cut(own, a, b).Keys == own.Keys && Reowned(own, a, b).Keys == own.Keys
  {
  }

  lemma GapsSplit(list: seq<nat>, size: map<nat, nat>, a: nat, n: nat, q: nat)
    requires Coalesced(list, size) && a in size && n <= size[a] && q !in list
    ensures Coalesced(list, size[a := size[a] - n][q := n])
  {
    var size' := size[a := size[a] - n][q := n];
    forall i: nat | 0 < i && i + 1 < |list| ensures Gap(list, size', i) {
      assert Gap(list, size, i) && list[i] in list;
    }
  }

  // Taking the end of a block.
  lemma NearSplit(list: seq<nat>, ptr: map<nat, nat>, size: map<nat, nat>, live: set<nat>, own: map<nat, nat>, i: nat,
                  n: nat, a: nat, left: nat)
    requires 0 < i < |list| && list[i] == a && a in size && 0 < n && 0 < left && size[a] == left + n
    requires Near(list, ptr, size, live, own, -1, -1)
    ensures a + left !in live && a + left !in list
    ensures Near(list, ptr, size[a := left][a + left := n], live + {a + left}, Cut(own, a, a + left), -1, -1)
  {
    hide Blocks, CoalescedBut, Cut;
    assert a in list;
    BlocksSplit(list, size, live, own, a, n);
    GapsSplit(list, size, a, n, a + left);
  }

  // A new block, in use, above all others.
  lemma NearGrow(list: seq<nat>, ptr: map<nat, nat>, size: map<nat, nat>, live: set<nat>, own: map<nat, nat>, a: nat,
                 n: nat)
    requires Near(list, ptr, size, live, own, -1, -1) && n > 0 && a > BASE && forall u :: u in own ==> u < a
    ensures a !in list && a !in live
    ensures Near(list, ptr, size[a := n], live + {a}, Claimed(own, a, n), -1, -1)
  {
    hide Ring, CoalescedBut, Increasing, Claimed;
    BlocksGrow(list, size, live, own, a, n);
    GapsGrow(list, size, a, n);
  }

  lemma BlocksGrow(list: seq<nat>, size: map<nat, nat>, live: set<nat>, own: map<nat, nat>, a: nat, n: nat)
    requires Blocks(list, size, live, own) && n > 0 && a > BASE && forall u :: u in own ==> u < a
    ensures a !in Elems(list) && a !in live && Blocks(list, size[a := n], live + {a}, Claimed(own, a, n))
  {
    var blocks := Elems(list) - {BASE} + live;
    assert a in blocks ==> Covers(size, a, a);
    GrowTiles(blocks, size, own, a, n);
    hide Tiling;
    assert Elems(list) - {BASE} + (live + {a}) == blocks + {a};
  }

  lemma GapsGrow(list: seq<nat>, size: map<nat, nat>, a: nat, n: nat)
    requires Coalesced(list, size) && a !in list
    ensures Coalesced(list, size[a := n])
  {
    var size' := size[a := n];
    forall i: nat | 0 < i && i + 1 < |list| ensures Gap(list, size', i) {
      assert Gap(list, size, i) && list[i] in list;
    }
  }

  // The number of units for nbytes bytes, with a header.
  function Units(nbytes: nat): nat {
    (nbytes + HEADER - 1) / HEADER + 1
  }

  // A block of n units has room for nbytes bytes after its header exactly from that number on,
  // which wastes less than a unit.
  lemma UnitsHold(nbytes: nat, n: nat)
    ensures nbytes <= (Units(nbytes) - 1) * HEADER < nbytes + HEADER
    ensures Units(nbytes) <= n <==> nbytes <= (n - 1) * HEADER
  {
  }

  lemma NoRoom(list: seq<nat>, size: map<nat, nat>, nbytes: nat)
    requires AllSmall(list, size, Units(nbytes))
    ensures forall i :: 0 <= i < |list| ==> list[i] in size && (size[list[i]] - 1) * HEADER < nbytes
  {
    forall i | 0 <= i < |list| ensures list[i] in size && (size[list[i]] - 1) * HEADER < nbytes {
      UnitsHold(nbytes, size[list[i]]);
    }
  }

  const INT_LIMIT: nat := 0x8000_0000
  const UINT_LIMIT: nat := 0x1_0000_0000

  // The argument of sbrk is an int.
  function AsInt(x: nat): int {
    var r := x % UINT_LIMIT;
    if r < INT_LIMIT then r else r - UINT_LIMIT
  }

  // What morecore asks for.
  function Core(nu: nat): nat {
    if nu < MIN_CORE then MIN_CORE else nu
  }

  // sbrk moves the break by what morecore records as the size of the new block exactly
  // for requests of up to 2^31 - 32 bytes; beyond, the block would reach past the break.
  lemma CoreFits(nbytes: nat)
    requires nbytes < UINT_LIMIT
    ensures AsInt(Core(Units(nbytes)) * HEADER) == Core(Units(nbytes)) * HEADER <==> nbytes <= INT_LIMIT - 2 * HEADER
    ensures nbytes > INT_LIMIT - 2 * HEADER ==> AsInt(Core(Units(nbytes)) * HEADER) < Core(Units(nbytes)) * HEADER
    ensures AsInt(Core(Units(UINT_LIMIT - 1)) * HEADER) == HEADER
  {
    assert Units(UINT_LIMIT - 1) * HEADER == UINT_LIMIT + HEADER;
    if nbytes <= INT_LIMIT - 2 * HEADER {
      assert Units(nbytes) * HEADER <= INT_LIMIT - HEADER;
    } else {
      assert INT_LIMIT <= Units(nbytes) * HEADER <= UINT_LIMIT + HEADER;
    }
  }

  // The element d steps after element f of a ring of n.
  function Ahead(f: nat, d: nat, n: nat): nat
    requires f < n && d <= n
  {
    if f + d < n then f + d else f + d - n
  }

  ghost predicate HeapOk(freep: Option<nat>, brk: nat, list: seq<nat>, ptr: map<nat, nat>, size: map<nat, nat>,
                         live: set<nat>, own: map<nat, nat>) {
    && (freep.None? ==> live == {} && own == map[])
    && (freep.Some? ==> Near(list, ptr, size, live, own, -1, -1) && freep.value in list)
    && brk > BASE && forall u :: u in own ==> u < brk
  }

  lemma HeapNear(freep: Option<nat>, brk: nat, list: seq<nat>, ptr: map<nat, nat>, size: map<nat, nat>, live: set<nat>,
                 own: map<nat, nat>)
    requires HeapOk(freep, brk, list, ptr, size, live, own) && freep.Some?
    ensures Near(list, ptr, size, live, own, -1, -1) && freep.value in list
  {
  }

  lemma FreshHeap(freep: Option<nat>, brk: nat, list: seq<nat>, ptr: map<nat, nat>, size: map<nat, nat>, live: set<nat>,
                  own: map<nat, nat>)
    requires HeapOk(freep, brk, list, ptr, size, live, own) && freep.None?
    ensures brk > BASE && live == {} && own == map[]
  {
  }

  // base alone on the list.
  lemma FirstHeap(brk: nat)
    requires brk > BASE
    ensures HeapOk(Some(BASE), brk, [BASE], map[BASE := BASE], map[BASE := 0], {}, map[])
  {
    EmptyHeap();
  }

  // The blocks in use keep their sizes.
  ghost predicate SizesKept(live: set<nat>, size: map<nat, nat>, size': map<nat, nat>) {
    forall a :: a in live ==> a in size && a in size' && size'[a] == size[a]
  }

  lemma SizesTrans(live: set<nat>, s0: map<nat, nat>, s1: map<nat, nat>, s2: map<nat, nat>)
    requires SizesKept(live, s0, s1) && SizesKept(live, s1, s2)
    ensures SizesKept(live, s0, s2)
  {
  }

  lemma SizesSelf(list: seq<nat>, ptr: map<nat, nat>, size: map<nat, nat>, live: set<nat>, own: map<nat, nat>)
    requires Near(list, ptr, size, live, own, -1, -1)
    ensures SizesKept(live, size, size)
  {
    hide Near;
    LiveSizes(list, ptr, size, live, own);
  }

  class Heap {
    var freep: Option<nat>
    var ptr: map<nat, nat>
    var size: map<nat, nat>
    var brk: nat                      // the end of the data segment
    ghost var list: seq<nat>          // the free list in address order, base first
    ghost var live: set<nat>          // the blocks in use
    ghost var own: map<nat, nat>      // the block each unit belongs to

    ghost predicate Valid()
      reads this
    {
      HeapOk(freep, brk, list, ptr, size, live, own)
    }

    constructor (start: nat)
      requires start > BASE
      ensures Valid() && freep == None && live == {} && own == map[] && brk == start
    {
      freep, ptr, size, brk := None, map[], map[], start;
      list, live, own := [], {}, map[];
    }

    // The loop of free: the element of the free list after which b belongs.
    method Search(b: nat) returns (p: nat, ghost j: nat)
      requires Valid() && b in live && freep.Some?
      ensures Place(list, j, b) && p == list[j]
    {
      hide CoalescedBut;
      j := FindPlace(list, b);
      p := freep.value;
      ghost var i: nat :| i < |list| && list[i] == p;
      RingNext(list, ptr, i);
      while !(b > p && b < ptr[p])
        invariant i < |list| && p == list[i] && p in ptr && ptr[p] == Succ(list, i)
        invariant Stops(p, ptr[p], b) <==> Place(list, i, b)
        decreases Distance(i, j, |list|)
      {
        if p >= ptr[p] && (b > p || b < ptr[p]) {
          break;
        }
        i := if i + 1 < |list| then i + 1 else 0;
        p := ptr[p];
        RingNext(list, ptr, i);
      }
    }

    // The first half of free: link the block to the one above, or merge them.  The element
    // p before it does not point to it yet.
    method LinkUpper(b: nat, p: nat, ghost j: nat)
      requires Valid() && b in live && freep.Some? && Place(list, j, b) && p == list[j]
      modifies `ptr, `size, `list, `live, `own
      ensures live == old(live) - {b} && own.Keys == old(own).Keys
      ensures Near(list, ptr[p := b], size, live, own, -1, j) && j + 1 < |list| && list[j] == p && list[j + 1] == b
      ensures p in size && b in size && b in ptr && p != b && (j == 0 ==> p + size[p] != b)
      ensures b in old(size) && size[b] >= old(size)[b]
      ensures p !in live && SizesKept(live, old(size), size)
    {
      hide Near, Ring, Blocks, CoalescedBut, Increasing, Reowned;
      NearAt(list, ptr, size, live, own, -1, -1, j, b);
      NearInsert(list, ptr, size, live, own, j, b);
      var next := ptr[p];
      ghost var list1, ptr1 := Inserted(list, j, b), ptr[b := next][p := b];
      live := live - {b};
      if b + size[b] == next {
        NearMerge(list1, ptr1, size, live, own, j + 1, j);
        SameUnits(own, b, next);
        own := Reowned(own, b, next);
        size := size[b := size[b] + size[next]];
        ptr := ptr[b := ptr[next]];
        list := Without(list1, j + 2);
        assert ptr[p := b] == ptr1[b := ptr1[next]];
      } else {
        NearApart(list1, ptr1, size, live, own, j + 1, j);
        ptr := ptr[b := next];
        list := list1;
      }
      NearSwap(list, ptr[p := b], size, live, own, j);
    }

    // Put a block in use back on the free list and merge it with its neighbours.
    method Free(b: nat)
      requires Valid() && b in live
      modifies `freep, `ptr, `size, `list, `live, `own
      ensures Valid() && freep.Some? && live == old(live) - {b} && own.Keys == old(own).Keys
      ensures SizesKept(live, old(size), size)
      ensures var f := freep.value;
        exists x :: x in list && x in size && b in old(size) && size[x] >= old(size)[b] && f in ptr
            && (x == f || x == ptr[f])
    {
      hide Near, Ring, Blocks, CoalescedBut, Increasing, Reowned, Without;
      var p;
      ghost var j;
      p, j := Search(b);
      LinkUpper(b, p, j);
      ghost var ptr1 := ptr[p := b];
      if p + size[p] == b {
        NearMerge(list, ptr1, size, live, own, j, -1);
        WithoutShape(list, j);
        SameUnits(own, p, b);
        own := Reowned(own, p, b);
        size := size[p := size[p] + size[b]];
        assert ptr[p := ptr[b]] == ptr1[p := ptr1[b]];
        ptr := ptr[p := ptr[b]];
        list := Without(list, j + 1);
      } else {
        NearApart(list, ptr1, size, live, own, j, -1);
        ptr := ptr[p := b];
      }
      freep := Some(p);
      assert list[j] == p;
    }

    // Ask for more memory and give it to the free list.  `grant` is the answer of sbrk and
    // `gap` what others have added to the data segment since.
    method Morecore(nu: nat, grant: bool, gap: nat) returns (ok: bool)
      requires Valid() && freep.Some? && AsInt(Core(nu) * HEADER) == Core(nu) * HEADER
      modifies `freep, `ptr, `size, `brk, `list, `live, `own
      ensures Valid() && freep.Some? && ok == grant && live == old(live)
      ensures !ok ==>
        && freep == old(freep) && ptr == old(ptr) && size == old(size) && list == old(list)
        && own == old(own) && brk == old(brk)
      ensures ok ==>
        && brk >= old(brk) + gap + nu && brk >= old(brk) + gap + MIN_CORE
        && (brk == old(brk) + gap + nu || brk == old(brk) + gap + MIN_CORE)
        && Granted(old(own), own, old(brk) + gap, brk)
        && (exists x ::
              && x in list && x in size && size[x] >= nu && freep.value in ptr
              && (x == freep.value || x == ptr[freep.value]))
      ensures SizesKept(live, old(size), size)
    {
      hide Near;
      LiveSizes(list, ptr, size, live, own);
      if !grant {
        return false;
      }
      var n := Core(nu);
      var p := brk + gap;
      NearGrow(list, ptr, size, live, own, p, n);
      size, live, own, brk := size[p := n], live + {p}, Claimed(own, p, n), p + n;
      Free(p);
      return true;
    }

    // Allocate nunits from the free block p, which follows prevp.
    method Take(prevp: nat, p: nat, nunits: nat, ghost i: nat) returns (b: nat)
      requires Valid() && freep.Some? && 0 < i < |list| && list[i] == p && list[i - 1] == prevp
      requires p in size && 0 < nunits <= size[p]
      modifies `freep, `ptr, `size, `list, `live, `own
      ensures Valid() && freep.Some? && b !in old(live) && live == old(live) + {b} && own.Keys == old(own).Keys
      ensures b in size && size[b] == nunits && b + nunits == p + old(size)[p]
      ensures SizesKept(old(live), old(size), size)
    {
      hide Near, Without, Cut;
      LiveSizes(list, ptr, size, live, own);
      NearUnlink(list, ptr, size, live, own, i);
      if size[p] == nunits {
        b := p;
        ptr := ptr[prevp := ptr[p]];
        list, live := Without(list, i), live + {p};
        WithoutShape(old(list), i - 1);
        assert list[i - 1] == prevp;
      } else {
        NearSplit(list, ptr, size, live, own, i, nunits, p, size[p] - nunits);
        b := p + (size[p] - nunits);
        SameUnits(own, p, b);
        size := size[p := size[p] - nunits];
        size := size[b := nunits];
        live, own := live + {b}, Cut(own, p, b);
        assert list[i - 1] == prevp;
      }
      freep := Some(prevp);
    }

    // The header of a block for nbytes bytes, or None if sbrk refuses to extend the heap.
    method Malloc(nbytes: nat, grant: bool, gap: nat) returns (r: Option<nat>, ghost calls: nat)
      requires Valid() && nbytes <= INT_LIMIT - 2 * HEADER
      modifies this
      ensures Valid() && freep.Some? && calls <= 1
      ensures r.None? ==> !grant && calls == 1 && live == old(live) && own.Keys == old(own).Keys
      ensures r.None? ==> forall i :: 0 <= i < |list| ==> list[i] in size && (size[list[i]] - 1) * HEADER < nbytes
      ensures r.Some? ==>
        && r.value !in old(live) && live == old(live) + {r.value} && r.value in size
        && nbytes <= (size[r.value] - 1) * HEADER < nbytes + HEADER
        && (calls == 0 ==>
              && own.Keys == old(own).Keys && old(freep).Some?
              && FirstFitting(old(list), old(size), old(freep).value, size[r.value], r.value))
        && (calls == 1 ==> Granted(old(own), own, old(brk) + gap, brk))
      ensures calls == 1 && old(freep).Some? ==>
        forall i :: 0 <= i < |old(list)| ==>
          old(list)[i] in old(size) && (old(size)[old(list)[i]] - 1) * HEADER < nbytes
      ensures SizesKept(old(live), old(size), size)
    {
      hide Near, Granted, HeapOk, SizesKept, AsInt, Units, Core, FirstFitting, AllSmall;
      CoreFits(nbytes);
      UnitsHold(nbytes, 0);
      var nunits := Units(nbytes);
      if freep == None {
        FreshHeap(freep, brk, list, ptr, size, live, own);
        FirstHeap(brk);
        SizesNone(size, map[BASE := 0]);
        freep, ptr, size, list := Some(BASE), map[BASE := BASE], map[BASE := 0], [BASE];
      } else {
        HeapNear(freep, brk, list, ptr, size, live, own);
        SizesSelf(list, ptr, size, live, own);
      }
      ghost var size1 := size;
      r, calls := FirstFit(nunits, grant, gap);
      if old(freep) == None && r.Some? {
        NothingFits(nunits, r.value);
      }
      SizesTrans(old(live), old(size), size1, size);
      if calls == 1 {
        if old(freep).Some? {
          NoRoom(old(list), old(size), nbytes);
        }
        if r.None? {
          NoRoom(list, size, nbytes);
        }
      }
    }

    // The search of malloc.
    method FirstFit(nunits: nat, grant: bool, gap: nat) returns (r: Option<nat>, ghost calls: nat)
      requires Valid() && freep.Some? && nunits > 0 && AsInt(Core(nunits) * HEADER) == Core(nunits) * HEADER
      modifies this
      ensures Valid() && freep.Some? && calls <= 1
      ensures r.None? ==> !grant && calls == 1 && live == old(live) && own.Keys == old(own).Keys
      ensures r.None? ==> AllSmall(list, size, nunits)
      ensures r.Some? ==>
        && r.value !in old(live) && live == old(live) + {r.value} && r.value in size && size[r.value] == nunits
        && (calls == 0 ==>
              own.Keys == old(own).Keys && FirstFitting(old(list), old(size), old(freep).value, nunits, r.value))
        && (calls == 1 ==> Granted(old(own), own, old(brk) + gap, brk))
      ensures calls == 1 ==> AllSmall(old(list), old(size), nunits)
      ensures SizesKept(old(live), old(size), size)
    {
      hide Near, Granted, Ahead, HeapOk, SizesKept, Core, AsInt, FirstFitting, AllSmall, At, Fits;
      HeapNear(freep, brk, list, ptr, size, live, own);
      SizesSelf(list, ptr, size, live, own);
      ghost var f: nat :| f < |list| && list[f] == freep.value;
      ghost var d: nat, dt: nat := 0, 0;
      AtStart(list, ptr, size, live, own, f);
      calls := 0;
      var prevp := freep.value;
      var p := ptr[prevp];
      while true
        invariant Valid() && freep.Some? && live == old(live) && f < |list| && list[f] == freep.value && d < |list|
        invariant At(list, ptr, size, f, d, prevp, p) && p in size && p in ptr
        invariant calls <= 1 && (calls == 0 ==> own == old(own) && brk == old(brk) && Small(list, size, f, d, nunits))
        invariant calls == 0 ==> list == old(list) && size == old(size) && freep == old(freep)
        invariant calls == 1 ==> AllSmall(old(list), old(size), nunits)
        invariant calls == 1 ==>
          grant && d < dt <= |list| && Granted(old(own), own, old(brk) + gap, brk) && Fits(list, size, f, dt, nunits)
        invariant SizesKept(live, old(size), size)
        decreases 1 - calls, |list| - d
      {
        HeapNear(freep, brk, list, ptr, size, live, own);
        ghost var own1, size1, list1, ptr1 := own, size, list, ptr;
        if size[p] >= nunits {
          ghost var i := AtTake(list, ptr, size, f, d, prevp, p);
          var b := Take(prevp, p, nunits, i);
          GrantedKeys(old(own), own1, own, old(brk) + gap, brk);
          if calls == 0 {
            FoundFirst(list1, ptr1, size1, old(freep).value, nunits, b, f, d, prevp, p);
          }
          SizesTrans(old(live), old(size), size1, size);
          return Some(b), calls;
        }
        AtSmall(list, ptr, size, f, d, prevp, p, nunits, dt);
        if p == freep.value {
          AtFull(list, ptr, size, live, own, f, d, prevp, p);
          if calls == 1 {
            assert false;
          }
          SmallAll(list, size, f, nunits);
          var ok;
          ghost var f1;
          ok, f1, dt := Refill(nunits, grant, gap);
          SizesTrans(live, old(size), size1, size);
          calls := calls + 1;
          if !ok {
            return None, calls;
          }
          f, d := f1, 0;
          p := freep.value;
        } else {
          AtNext(list, ptr, size, live, own, f, d, prevp, p);
          d := d + 1;
        }
        prevp := p;
        p := ptr[p];
      }
    }

    // morecore, as malloc calls it: the search starts again, and will find a block.
    method Refill(nunits: nat, grant: bool, gap: nat) returns (ok: bool, ghost f: nat, ghost dt: nat)
      requires Valid() && freep.Some? && AsInt(Core(nunits) * HEADER) == Core(nunits) * HEADER
      modifies `freep, `ptr, `size, `brk, `list, `live, `own
      ensures Valid() && freep.Some? && ok == grant && live == old(live) && SizesKept(live, old(size), size)
      ensures !ok ==> size == old(size) && list == old(list) && own == old(own)
      ensures ok ==>
        && Granted(old(own), own, old(brk) + gap, brk) && f < |list| && list[f] == freep.value && 0 < dt <= |list|
        && Fits(list, size, f, dt, nunits) && freep.value in ptr
             && At(list, ptr, size, f, 0, freep.value, ptr[freep.value])
        && ptr[freep.value] in size && ptr[freep.value] in ptr
    {
      hide Near, Granted, At, Fits, HeapOk, SizesKept, Core;
      ok := Morecore(nunits, grant, gap);
      f, dt := 0, 0;
      if ok {
        HeapNear(freep, brk, list, ptr, size, live, own);
        f, dt := FitAhead(list, ptr, size, live, own, freep.value, nunits);
        AtStart(list, ptr, size, live, own, f);
      }
    }
  }

  lemma SizesNone(s0: map<nat, nat>, s1: map<nat, nat>)
    ensures SizesKept({}, s0, s1)
  {
  }

  // Where the search is after d steps from element f: at p, with prevp before it.
  ghost predicate At(list: seq<nat>, ptr: map<nat, nat>, size: map<nat, nat>, f: nat, d: nat, prevp: nat, p: nat) {
    && f < |list| && d < |list| && prevp == list[Ahead(f, d, |list|)] && p == list[Ahead(f, d + 1, |list|)]
    && p in size && p in ptr && prevp in ptr && p == ptr[prevp]
    && (if p == BASE then size[p] == 0 else Ahead(f, d + 1, |list|) == Ahead(f, d, |list|) + 1)
  }

  ghost predicate Fits(list: seq<nat>, size: map<nat, nat>, f: nat, d: nat, n: nat) {
    f < |list| && d <= |list| && list[Ahead(f, d, |list|)] in size && size[list[Ahead(f, d, |list|)]] >= n
  }

  lemma AtStart(list: seq<nat>, ptr: map<nat, nat>, size: map<nat, nat>, live: set<nat>, own: map<nat, nat>, f: nat)
    requires Near(list, ptr, size, live, own, -1, -1) && f < |list|
    ensures list[f] in ptr && At(list, ptr, size, f, 0, list[f], ptr[list[f]]) && ptr[list[f]] in size
      && ptr[list[f]] in ptr
  {
    hide Blocks, CoalescedBut, Near;
    ListAt(list, ptr, size, live, own, f, 0);
    ListAt(list, ptr, size, live, own, f, 1);
  }

  lemma AtNext(list: seq<nat>, ptr: map<nat, nat>, size: map<nat, nat>, live: set<nat>, own: map<nat, nat>, f: nat,
               d: nat, prevp: nat, p: nat)
    requires Near(list, ptr, size, live, own, -1, -1) && At(list, ptr, size, f, d, prevp, p) && p != list[f]
    ensures d + 1 < |list| && At(list, ptr, size, f, d + 1, p, ptr[p]) && ptr[p] in size && ptr[p] in ptr
  {
    hide Blocks, CoalescedBut, Near;
    ListAt(list, ptr, size, live, own, f, d + 1);
    if d + 2 <= |list| {
      ListAt(list, ptr, size, live, own, f, d + 2);
    }
  }

  // Element p is too small, and so not the one that fits.
  lemma AtSmall(list: seq<nat>, ptr: map<nat, nat>, size: map<nat, nat>, f: nat, d: nat, prevp: nat, p: nat, n: nat,
                dt: nat)
    requires At(list, ptr, size, f, d, prevp, p) && size[p] < n
    ensures Small(list, size, f, d, n) ==> Small(list, size, f, d + 1, n)
    ensures d < dt && Fits(list, size, f, dt, n) ==> d + 1 < dt
  {
  }

  lemma AtTake(list: seq<nat>, ptr: map<nat, nat>, size: map<nat, nat>, f: nat, d: nat, prevp: nat,
               p: nat) returns (i: nat)
    requires At(list, ptr, size, f, d, prevp, p) && size[p] > 0
    ensures 0 < i < |list| && list[i] == p && list[i - 1] == prevp
  {
    i := Ahead(f, d + 1, |list|);
  }

  lemma AtFull(list: seq<nat>, ptr: map<nat, nat>, size: map<nat, nat>, live: set<nat>, own: map<nat, nat>, f: nat,
               d: nat, prevp: nat, p: nat)
    requires Near(list, ptr, size, live, own, -1, -1) && At(list, ptr, size, f, d, prevp, p) && p == list[f]
    ensures d + 1 == |list|
  {
    AheadFull(list, ptr, size, live, own, f, d);
  }

  // The units [lo, hi) have been added.
  ghost predicate Granted(own: map<nat, nat>, own': map<nat, nat>, lo: nat, hi: nat) {
    forall u: nat :: u in own' <==> u in own || lo <= u < hi
  }

  lemma GrantedKeys(own: map<nat, nat>, own1: map<nat, nat>, own2: map<nat, nat>, lo: nat, hi: nat)
    requires own1.Keys == own2.Keys
    ensures Granted(own, own1, lo, hi) ==> Granted(own, own2, lo, hi)
  {
    assert forall u: nat :: (u in own1 <==> u in own1.Keys) && (u in own2 <==> u in own2.Keys);
  }

  lemma EmptyHeap()
    ensures Near([BASE], map[BASE := BASE], map[BASE := 0], {}, map[], -1, -1)
  {
    assert Elems([BASE]) - {BASE} == {};
  }

  // The d elements of the ring after element f are too small.
  ghost predicate Small(list: seq<nat>, size: map<nat, nat>, f: nat, d: nat, n: nat)
    requires f < |list| && d <= |list|
  {
    forall e: nat :: 1 <= e <= d ==> var x := list[Ahead(f, e, |list|)]; x in size && size[x] < n
  }

  ghost predicate AllSmall(list: seq<nat>, size: map<nat, nat>, n: nat) {
    forall i :: 0 <= i < |list| ==> list[i] in size && size[list[i]] < n
  }

  // b is the tail of the first element after `start`, around the ring, that has n units.
  ghost predicate FirstFitting(list: seq<nat>, size: map<nat, nat>, start: nat, n: nat, b: nat) {
    exists f: nat, d: nat :: FittingAt(list, size, start, n, b, f, d)
  }

  ghost predicate FittingAt(list: seq<nat>, size: map<nat, nat>, start: nat, n: nat, b: nat, f: nat, d: nat) {
    && f < |list| && list[f] == start && d < |list| && Small(list, size, f, d, n) && Fits(list, size, f, d + 1, n)
    && var x := list[Ahead(f, d + 1, |list|)]; b + n == x + size[x]
  }

  lemma FoundFirst(list: seq<nat>, ptr: map<nat, nat>, size: map<nat, nat>, start: nat, n: nat, b: nat, f: nat, d: nat,
                   prevp: nat, p: nat)
    requires At(list, ptr, size, f, d, prevp, p) && list[f] == start && Small(list, size, f, d, n)
    requires size[p] >= n && b + n == p + size[p]
    ensures FirstFitting(list, size, start, n, b)
  {
    assert FittingAt(list, size, start, n, b, f, d);
  }

  // base alone has room for nothing.
  lemma NothingFits(n: nat, b: nat)
    requires n > 0
    ensures !FirstFitting([BASE], map[BASE := 0], BASE, n, b)
  {
  }

  lemma SmallAll(list: seq<nat>, size: map<nat, nat>, f: nat, n: nat)
    requires f < |list| && Small(list, size, f, |list|, n)
    ensures AllSmall(list, size, n)
  {
    forall i | 0 <= i < |list| ensures list[i] in size && size[list[i]] < n {
      var e := if i > f then i - f else i + |list| - f;
      assert Ahead(f, e, |list|) == i;
    }
  }

  lemma ListAt(list: seq<nat>, ptr: map<nat, nat>, size: map<nat, nat>, live: set<nat>, own: map<nat, nat>, f: nat,
               d: nat)
    requires Near(list, ptr, size, live, own, -1, -1) && f < |list| && d <= |list|
    ensures var x := list[Ahead(f, d, |list|)];
      && x in size && x in ptr && (x == BASE ==> size[x] == 0)
      && (d < |list| ==> ptr[x] == list[Ahead(f, d + 1, |list|)])
      && (d < |list| && ptr[x] != BASE ==> Ahead(f, d + 1, |list|) == Ahead(f, d, |list|) + 1)
    ensures Ahead(f, 0, |list|) == f && Ahead(f, |list|, |list|) == f
  {
    hide Blocks, CoalescedBut;
    RingNext(list, ptr, Ahead(f, d, |list|));
    ListBlock(list, size, live, own, Ahead(f, d, |list|));
  }

  // The search is back at its start after |list| steps.
  lemma AheadFull(list: seq<nat>, ptr: map<nat, nat>, size: map<nat, nat>, live: set<nat>, own: map<nat, nat>, f: nat,
                  d: nat)
    requires Near(list, ptr, size, live, own, -1, -1) && f < |list| && d < |list|
      && list[Ahead(f, d + 1, |list|)] == list[f]
    ensures d + 1 == |list|
  {
    hide Ring, Blocks, CoalescedBut, Increasing;
    RingStart(list, ptr, f);
    if Ahead(f, d + 1, |list|) != f {
      Distinct(list, Ahead(f, d + 1, |list|), f);
    }
  }

  // After morecore a block that fits is the next one or the last one of the search.
  lemma FitAhead(list: seq<nat>, ptr: map<nat, nat>, size: map<nat, nat>, live: set<nat>, own: map<nat, nat>, fp: nat,
                 n: nat)
    returns (f: nat, dt: nat)
    requires Near(list, ptr, size, live, own, -1, -1) && fp in list && fp in ptr
    requires exists x :: x in list && x in size && size[x] >= n && (x == fp || x == ptr[fp])
    ensures f < |list| && list[f] == fp && 0 < dt <= |list|
    ensures Fits(list, size, f, dt, n)
  {
    hide Ring, Blocks, CoalescedBut, Increasing;
    f :| 0 <= f < |list| && list[f] == fp;
    RingNext(list, ptr, f);
    var x :| x in list && x in size && size[x] >= n && (x == fp || x == ptr[fp]);
    dt := if x == fp then |list| else 1;
  }

  lemma LiveSizes(list: seq<nat>, ptr: map<nat, nat>, size: map<nat, nat>, live: set<nat>, own: map<nat, nat>)
    requires Near(list, ptr, size, live, own, -1, -1)
    ensures forall a :: a in live ==> a in size
  {
    hide Ring, CoalescedBut;
    forall a | a in live ensures a in size {
    }
  }

  lemma WithoutShape(list: seq<nat>, j: nat)
    requires j + 1 < |list|
    ensures |Without(list, j + 1)| == |list| - 1 && Without(list, j + 1)[j] == list[j]
  {
  }

  // What free reads around the place of b.
  lemma NearAt(list: seq<nat>, ptr: map<nat, nat>, size: map<nat, nat>, live: set<nat>, own: map<nat, nat>, e: int,
               f: int, j: nat, b: nat)
    requires Near(list, ptr, size, live, own, e, f) && Place(list, j, b) && b in live
    ensures list[j] in ptr && ptr[list[j]] == Succ(list, j) && Succ(list, j) in ptr
    ensures list[j] in size && Succ(list, j) in size && b in size
    ensures size[b] > 0 && (j == 0 <==> list[j] == BASE) && (j == 0 ==> size[list[j]] == 0)
    ensures list[j] != b && Succ(list, j) != b && (j + 1 < |list| ==> list[j] != list[j + 1])
    ensures list[j] !in live && Succ(list, j) !in live && (Succ(list, j) == BASE <==> j + 1 == |list|)
    ensures forall a :: a in live ==> a in size
  {
    hide CoalescedBut;
    var k := if j + 1 < |list| then j + 1 else 0;
    RingNext(list, ptr, j);
    RingNext(list, ptr, k);
    ListBlock(list, size, live, own, j);
    ListBlock(list, size, live, own, k);
    forall a | a in live ensures a in size {
    }
  }
}
