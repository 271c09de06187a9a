// The virtio block driver (kernel/virtio_disk.c): descriptors, the available and used rings
// of sections 2.6.5 to 2.6.8 of virtio 1.1, and a device that may complete requests in any
// order.  Each method is one critical section under vdisk_lock, or one action of the device.
module VirtioRing {
  import opened Wrappers

  const NUM: nat := 8
  const WRAP: nat := 0x1_0000       // the ring indices are uint16

  // The ring position of an index.
  function Pos(n: nat): (p: nat)
    ensures p < NUM
  {
    n % NUM
  }

  // The next 16-bit index.
  function Next16(n: nat): nat {
    (n + 1) % WRAP
  }

  datatype Desc = Desc(hasNext: bool, next: nat)

  // A request is named by the head of its chain.
  datatype Request = Request(buf: nat, mid: nat, tail: nat)

  // How many entries are true.
  ghost function Count(s: seq<bool>): nat {
    if s == [] then 0 else Count(s[..|s| - 1]) + if s[|s| - 1] then 1 else 0
  }

  lemma {:induction false} CountUpdate(s: seq<bool>, i: nat, b: bool)
    requires i < |s|
    ensures Count(s[i := b]) == Count(s) + (if b then 1 else 0) - (if s[i] then 1 else 0)
  {
    var n := |s| - 1;
    if i == n {
      assert s[i := b][..n] == s[..n];
    } else {
      assert s[i := b][..n] == s[..n][i := b];
      CountUpdate(s[..n], i, b);
    }
  }

  lemma {:induction false} CountNone(s: seq<bool>)
    requires forall i :: 0 <= i < |s| ==> !s[i]
    ensures Count(s) == 0
  {
    if s != [] {
      CountNone(s[..|s| - 1]);
    }
  }

  lemma {:induction false} CountAll(s: seq<bool>)
    requires forall i :: 0 <= i < |s| ==> s[i]
    ensures Count(s) == |s|
  {
    if s != [] {
      CountAll(s[..|s| - 1]);
    }
  }

  // Descriptor i belongs to the chain with head h.
  predicate InChain(h: nat, r: Request, i: nat) {
    i == h || i == r.mid || i == r.tail
  }

  // Each descriptor in use belongs to the chain of exactly one request, the one own names.
  ghost predicate Chains(free: seq<bool>, desc: seq<Desc>, requests: map<nat, Request>, own: seq<Option<nat>>) {
    && |free| == |desc| == |own| == NUM
    && (forall i: nat :: i < NUM ==> (free[i] <==> own[i] == None))
    && (forall i: nat :: i < NUM && own[i].Some? ==>
        own[i].value in requests && InChain(own[i].value, requests[own[i].value], i))
    && (forall h :: h in requests ==> ChainAt(desc, requests, own, h))
  }

  ghost predicate ChainAt(desc: seq<Desc>, requests: map<nat, Request>, own: seq<Option<nat>>, h: nat)
    requires h in requests && |desc| == |own| == NUM
  {
    var r := requests[h];
    && h < NUM && r.mid < NUM && r.tail < NUM && h != r.mid && h != r.tail && r.mid != r.tail
    && own[h] == Some(h) && own[r.mid] == Some(h) && own[r.tail] == Some(h)
    && desc[h] == Desc(true, r.mid) && desc[r.mid] == Desc(true, r.tail) && !desc[r.tail].hasNext
  }

  // The entries of a ring between two counters are different members of a set, and there
  // are as many as the set has members.
  ghost predicate Queue(ring: seq<nat>, from: nat, to: nat, members: set<nat>) {
    && |ring| == NUM && from <= to && to - from == |members|
    && (forall k: nat :: from <= k < to ==> ring[Pos(k)] in members)
    && (forall j: nat, k: nat :: from <= j < k < to ==> ring[Pos(j)] != ring[Pos(k)])
  }

  lemma QueueShape(ring: seq<nat>, from: nat, to: nat, members: set<nat>)
    requires Queue(ring, from, to, members)
    ensures |ring| == NUM && from <= to && to - from == |members| && Pos(from) < NUM && Pos(to) < NUM
  {
  }

  lemma QueuePush(ring: seq<nat>, from: nat, to: nat, members: set<nat>, h: nat)
    requires Queue(ring, from, to, members) && h !in members && |members| < NUM
    ensures Queue(ring[Pos(to) := h], from, to + 1, members + {h})
  {
    hide Pos;
    forall k: nat | from <= k < to ensures Pos(k) != Pos(to) && Pos(k) < NUM {
      PosDiffer(k, to);
    }
  }

  lemma PosDiffer(k: nat, n: nat)
    requires k < n < k + NUM
    ensures Pos(k) != Pos(n) && Pos(k) < NUM
  {
    assert k == NUM * (k / NUM) + Pos(k) && n == NUM * (n / NUM) + Pos(n);
  }

  lemma QueuePop(ring: seq<nat>, from: nat, to: nat, members: set<nat>)
    requires Queue(ring, from, to, members) && from < to
    ensures ring[Pos(from)] in members && Queue(ring, from + 1, to, members - {ring[Pos(from)]})
  {
  }

  // Where the requests are: offered to the device, taken by it, completed, or completed
  // and seen by the driver.
  datatype Places = Places(offered: set<nat>, taken: set<nat>, completed: set<nat>, done: set<nat>)

  // A request moves on.
  function Offered(p: Places, h: nat): Places { p.(offered := p.offered + {h}) }
  function Taken(p: Places, h: nat): Places { p.(offered := p.offered - {h}, taken := p.taken + {h}) }
  function Completed(p: Places, h: nat): Places { p.(taken := p.taken - {h}, completed := p.completed + {h}) }
  function Seen(p: Places, h: nat): Places { p.(completed := p.completed - {h}, done := p.done + {h}) }
  function Finished(p: Places, h: nat): Places { p.(done := p.done - {h}) }

  ghost predicate PlacesOk(requests: map<nat, Request>, p: Places) {
    && requests.Keys == p.offered + p.taken + p.completed + p.done
    && p.offered !! p.taken !! p.completed !! p.done
  }

  // A buffer is busy exactly while its request is under way.
  ghost predicate Buffers(info: seq<Option<nat>>, busy: set<nat>, requests: map<nat, Request>, done: set<nat>) {
    && |info| == NUM
    && (forall h :: h in requests ==>
        h < NUM && info[h] == Some(requests[h].buf) && (requests[h].buf in busy <==> h !in done))
    && (forall g, h :: g in requests && h in requests && requests[g].buf == requests[h].buf ==> g == h)
  }

  lemma PlacesSize(requests: map<nat, Request>, p: Places)
    requires PlacesOk(requests, p)
    ensures |requests| == |p.offered| + |p.taken| + |p.completed| + |p.done|
  {
    assert |requests| == |requests.Keys|;
    assert |p.offered + p.taken| == |p.offered| + |p.taken|;
    assert |p.offered + p.taken + p.completed| == |p.offered + p.taken| + |p.completed|;
    assert |p.offered + p.taken + p.completed + p.done| == |p.offered + p.taken + p.completed| + |p.done|;
  }

  // own' is own but for the three descriptors of a chain.
  ghost predicate Marked(own: seq<Option<nat>>, own': seq<Option<nat>>, h: nat, r: Request, o: Option<nat>) {
    |own'| == |own| && forall i: nat :: i < |own| ==> own'[i] == if InChain(h, r, i) then o else own[i]
  }

  ghost predicate Flagged(free: seq<bool>, free': seq<bool>, h: nat, r: Request, b: bool) {
    |free'| == |free| && forall i: nat :: i < |free| ==> free'[i] == if InChain(h, r, i) then b else free[i]
  }

  predicate Proper(h: nat, r: Request) {
    h < NUM && r.mid < NUM && r.tail < NUM && h != r.mid && h != r.tail && r.mid != r.tail
  }

  function Set3<T>(s: seq<T>, h: nat, r: Request, v: T): seq<T>
    requires Proper(h, r) && |s| == NUM
  {
    s[h := v][r.mid := v][r.tail := v]
  }

  lemma Set3Marks(own: seq<Option<nat>>, h: nat, r: Request, o: Option<nat>)
    requires Proper(h, r) && |own| == NUM
    ensures Marked(own, Set3(own, h, r, o), h, r, o)
  {
  }

  lemma Set3Flags(free: seq<bool>, h: nat, r: Request, b: bool)
    requires Proper(h, r) && |free| == NUM && free[h] == free[r.mid] == free[r.tail] == !b
    ensures Flagged(free, Set3(free, h, r, b), h, r, b)
    ensures Count(Set3(free, h, r, b)) == Count(free) + if b then 3 else -3
  {
    CountUpdate(free, h, b);
    CountUpdate(free[h := b], r.mid, b);
    CountUpdate(free[h := b][r.mid := b], r.tail, b);
  }

  // Three free descriptors become the chain of a new request.
  lemma ChainsAdd(free: seq<bool>, desc: seq<Desc>, requests: map<nat, Request>, own: seq<Option<nat>>, h: nat,
                  r: Request, free': seq<bool>, desc': seq<Desc>, own': seq<Option<nat>>)
    requires Chains(free, desc, requests, own) && Proper(h, r) && free[h] && free[r.mid] && free[r.tail]
    requires Flagged(free, free', h, r, false) && Marked(own, own', h, r, Some(h)) && |desc'| == NUM
    requires desc'[h] == Desc(true, r.mid) && desc'[r.mid] == Desc(true, r.tail) && !desc'[r.tail].hasNext
    requires forall i: nat :: i < NUM && !InChain(h, r, i) ==> desc'[i] == desc[i]
    ensures h !in requests && Chains(free', desc', requests[h := r], own')
  {
    assert h in requests ==> ChainAt(desc, requests, own, h);
    var requests' := requests[h := r];
    forall g | g in requests' ensures ChainAt(desc', requests', own', g) {
      if g != h {
        assert ChainAt(desc, requests, own, g);
      }
    }
  }

  // The chain of a request is given back.
  lemma ChainsDrop(free: seq<bool>, desc: seq<Desc>, requests: map<nat, Request>, own: seq<Option<nat>>, h: nat,
                   free': seq<bool>, own': seq<Option<nat>>)
    requires Chains(free, desc, requests, own) && h in requests
    requires Flagged(free, free', h, requests[h], true) && Marked(own, own', h, requests[h], None)
    ensures Chains(free', desc, requests - {h}, own')
  {
    assert ChainAt(desc, requests, own, h);
    forall g | g in requests - {h} ensures ChainAt(desc, requests - {h}, own', g) {
      assert ChainAt(desc, requests, own, g);
    }
  }

  lemma MapLess(requests: map<nat, Request>, h: nat)
    requires h in requests
    ensures |requests - {h}| == |requests| - 1
  {
    assert requests.Keys == (requests - {h}).Keys + {h};
    assert |requests| == |requests.Keys| && |requests - {h}| == |(requests - {h}).Keys|;
  }

  lemma MapMore(requests: map<nat, Request>, h: nat, r: Request)
    requires h !in requests
    ensures |requests[h := r]| == |requests| + 1
  {
    assert requests[h := r].Keys == requests.Keys + {h};
    assert |requests| == |requests.Keys| && |requests[h := r]| == |requests[h := r].Keys|;
  }

  // The three descriptors of a request, formatted.
  function Linked(desc: seq<Desc>, h: nat, m: nat, t: nat): seq<Desc>
    requires h < |desc| && m < |desc| && t < |desc|
  {
    desc[h := Desc(true, m)][m := Desc(true, t)][t := Desc(false, 0)]
  }

  lemma LinkDescs(desc: seq<Desc>, h: nat, r: Request)
    requires |desc| == NUM && Proper(h, r)
    ensures var desc' := Linked(desc, h, r.mid, r.tail);
      && |desc'| == NUM && desc'[h] == Desc(true, r.mid) && desc'[r.mid] == Desc(true, r.tail) && !desc'[r.tail].hasNext
      && forall i: nat :: i < NUM && !InChain(h, r, i) ==> desc'[i] == desc[i]
  {
  }

  // The ring indices, in 16 bits, and used_idx, modulo 8, against the true counts.
  ghost predicate Indices(availIdx: nat, offers: nat, devIdx: nat, takes: nat, usedId: nat, completes: nat,
                          usedIdx: nat, sees: nat) {
    availIdx == offers % WRAP && devIdx == takes % WRAP && usedId == completes % WRAP && usedIdx == Pos(sees)
  }

  // a is m * q + r with r below m: then r is the remainder.
  lemma Remainder(a: nat, m: nat, q: nat, r: nat)
    requires m == NUM || m == WRAP
    requires r < m && a == m * q + r
    ensures a % m == r
  {
  }

  lemma ModWrap(n: nat)
    ensures Pos(n % WRAP) == Pos(n)
  {
    var q, r := n / WRAP, n % WRAP;
    var a, b := r / NUM, r % NUM;
    assert n == 8 * (8192 * q + a) + b;
    Remainder(n, NUM, 8192 * q + a, b);
  }

  lemma ModNext(n: nat, m: nat)
    requires m == NUM || m == WRAP
    ensures (n % m + 1) % m == (n + 1) % m
  {
    var q, r := n / m, n % m;
    assert n == m * q + r;
    if r + 1 == m {
      Remainder(n + 1, m, q + 1, 0);
    } else {
      Remainder(n + 1, m, q, r + 1);
    }
  }

  // Position and next value of the available index.
  lemma OfferIndex(availIdx: nat, offers: nat, devIdx: nat, takes: nat, usedId: nat, completes: nat, usedIdx: nat,
                   sees: nat)
    requires Indices(availIdx, offers, devIdx, takes, usedId, completes, usedIdx, sees)
    ensures Pos(availIdx) == Pos(offers)
    ensures Indices(Next16(availIdx), offers + 1, devIdx, takes, usedId, completes, usedIdx, sees)
  {
    ModWrap(offers);
    ModNext(offers, WRAP);
  }

  lemma CompleteIndex(availIdx: nat, offers: nat, devIdx: nat, takes: nat, usedId: nat, completes: nat, usedIdx: nat,
                      sees: nat)
    requires Indices(availIdx, offers, devIdx, takes, usedId, completes, usedIdx, sees)
    ensures Pos(usedId) == Pos(completes)
    ensures Indices(availIdx, offers, devIdx, takes, Next16(usedId), completes + 1, usedIdx, sees)
  {
    ModWrap(completes);
    ModNext(completes, WRAP);
  }

  lemma TakeIndex(availIdx: nat, offers: nat, devIdx: nat, takes: nat, usedId: nat, completes: nat, usedIdx: nat,
                  sees: nat)
    requires Indices(availIdx, offers, devIdx, takes, usedId, completes, usedIdx, sees) && takes <= offers < takes + NUM
    ensures devIdx == availIdx <==> takes == offers
    ensures Pos(devIdx) == Pos(takes)
    ensures Indices(availIdx, offers, Next16(devIdx), takes + 1, usedId, completes, usedIdx, sees)
  {
    ModWrap(takes);
    ModNext(takes, WRAP);
    if takes < offers {
      assert offers == WRAP * (offers / WRAP) + offers % WRAP && takes == WRAP * (takes / WRAP) + takes % WRAP;
    }
  }

  // The driver's test, on indices modulo 8, tells whether a completion is waiting: there
  // are never as many as 8.
  lemma SeeIndex(availIdx: nat, offers: nat, devIdx: nat, takes: nat, usedId: nat, completes: nat, usedIdx: nat,
                 sees: nat)
    requires Indices(availIdx, offers, devIdx, takes, usedId, completes, usedIdx, sees)
      && sees <= completes < sees + NUM
    ensures Pos(usedIdx) != Pos(usedId) <==> sees < completes
    ensures usedIdx < NUM && usedIdx == Pos(sees)
    ensures Indices(availIdx, offers, devIdx, takes, usedId, completes, Pos(usedIdx + 1), sees + 1)
  {
    ModWrap(completes);
    ModNext(sees, NUM);
    if sees < completes {
      var d := completes - sees;
      assert completes == NUM * (completes / NUM) + completes % NUM && sees == NUM * (sees / NUM) + sees % NUM;
    }
  }

  // The next entry of the used ring is where used_idx says.
  lemma SeeNext(availIdx: nat, offers: nat, devIdx: nat, takes: nat, usedId: nat, completes: nat, usedIdx: nat,
                sees: nat, ring: seq<nat>, members: set<nat>)
    requires Indices(availIdx, offers, devIdx, takes, usedId, completes, usedIdx, sees) && sees < completes
    requires Queue(ring, sees, completes, members) && |members| < NUM
    ensures usedIdx < |ring| && ring[usedIdx] in members && Queue(ring, sees + 1, completes, members - {ring[usedIdx]})
    ensures Indices(availIdx, offers, devIdx, takes, usedId, completes, Pos(usedIdx + 1), sees + 1)
  {
    hide Queue, Indices, Pos;
    QueueShape(ring, sees, completes, members);
    SeeIndex(availIdx, offers, devIdx, takes, usedId, completes, usedIdx, sees);
    QueuePop(ring, sees, completes, members);
  }

  // The requests, the chain each descriptor is in, where the requests are, and how many
  // have ever been offered, taken, completed and seen.
  datatype Ghost = Ghost(requests: map<nat, Request>, own: seq<Option<nat>>, places: Places,
                         offers: nat, takes: nat, completes: nat, sees: nat)

  ghost predicate DiskOk(free: seq<bool>, desc: seq<Desc>, info: seq<Option<nat>>, busy: set<nat>, avail: seq<nat>,
                         availIdx: nat, devIdx: nat, usedRing: seq<nat>, usedId: nat, usedIdx: nat, g: Ghost) {
    && Chains(free, desc, g.requests, g.own) && Count(free) + 3 * |g.requests| == NUM
    && Buffers(info, busy, g.requests, g.places.done) && PlacesOk(g.requests, g.places)
    && Queue(avail, g.takes, g.offers, g.places.offered) && Queue(usedRing, g.sees, g.completes, g.places.completed)
    && Indices(availIdx, g.offers, devIdx, g.takes, usedId, g.completes, usedIdx, g.sees)
  }

  // A new request, on the available ring.
  function OfferedGhost(g: Ghost, a: nat, q: Request): Ghost
    requires Proper(a, q) && |g.own| == NUM
  {
    g.(requests := g.requests[a := q], own := Set3(g.own, a, q, Some(a)), places := Offered(g.places, a),
       offers := g.offers + 1)
  }

  lemma OfferOk(free0: seq<bool>, free: seq<bool>, desc: seq<Desc>, info: seq<Option<nat>>, busy: set<nat>,
                avail: seq<nat>, availIdx: nat, devIdx: nat, usedRing: seq<nat>, usedId: nat, usedIdx: nat, g: Ghost,
                    a: nat, q: Request)
    requires DiskOk(free0, desc, info, busy, avail, availIdx, devIdx, usedRing, usedId, usedIdx, g)
    requires forall h :: h in g.requests ==> g.requests[h].buf != q.buf
    requires Proper(a, q) && |free0| == NUM && |g.places.offered| < NUM
    requires free0[a] && free0[q.mid] && free0[q.tail] && free == Set3(free0, a, q, false)
    ensures |desc| == |g.own| == |info| == |avail| == NUM && a !in g.requests && Pos(availIdx) == Pos(g.offers) < NUM
    ensures DiskOk(free, Linked(desc, a, q.mid, q.tail), info[a := Some(q.buf)], busy + {q.buf},
                   avail[Pos(availIdx) := a], Next16(availIdx), devIdx, usedRing, usedId, usedIdx,
                       OfferedGhost(g, a, q))
  {
    hide Chains, Buffers, PlacesOk, Queue, Count, Set3, Linked, Indices, Pos, Next16, Offered;
    ChainsShape(free0, desc, g.requests, g.own);
    OfferChains(free0, free, desc, g.requests, g.own, a, q);
    BuffersAdd(info, busy, g.requests, g.places, a, q);
    QueueShape(avail, g.takes, g.offers, g.places.offered);
    QueuePush(avail, g.takes, g.offers, g.places.offered, a);
    OfferIndex(availIdx, g.offers, devIdx, g.takes, usedId, g.completes, usedIdx, g.sees);
  }

  lemma ChainsShape(free: seq<bool>, desc: seq<Desc>, requests: map<nat, Request>, own: seq<Option<nat>>)
    requires Chains(free, desc, requests, own)
    ensures |free| == |desc| == |own| == NUM
  {
  }

  class Disk {
    var free: seq<bool>
    var desc: seq<Desc>
    var info: seq<Option<nat>>        // info[h].b
    var avail: seq<nat>               // avail[2..]
    var availIdx: nat                 // avail[1]
    var usedIdx: nat                  // used_idx, the driver's
    var usedRing: seq<nat>            // used->elems[].id
    var usedId: nat                   // used->id, the device's
    var devIdx: nat                   // how far the device has read the available ring
    var busy: set<nat>                // the buffers with b->disk == 1
    ghost var g: Ghost

    ghost predicate Valid()
      reads this
    {
      DiskOk(free, desc, info, busy, avail, availIdx, devIdx, usedRing, usedId, usedIdx, g)
    }

    // virtio_disk_init
    constructor ()
      ensures Valid() && g.requests == map[] && busy == {} && Count(free) == NUM
    {
      free, desc, info := seq(NUM, _ => true), seq(NUM, _ => Desc(false, 0)), seq(NUM, _ => None);
      avail, availIdx, usedIdx, usedRing, usedId, devIdx := seq(NUM, _ => 0), 0, 0, seq(NUM, _ => 0), 0, 0;
      busy, g := {}, Ghost(map[], seq(NUM, _ => None), Places({}, {}, {}, {}), 0, 0, 0, 0);
      new;
      CountAll(free);
    }

    // A descriptor, marked as used; None if all are in use.
    method AllocDesc() returns (r: Option<nat>)
      requires |free| == NUM
      modifies `free
      ensures r.None? ==> free == old(free) && Count(free) == 0
      ensures r.Some? ==> r.value < NUM && old(free)[r.value] && free == old(free)[r.value := false]
    {
      var i := 0;
      while i < NUM
        invariant i <= NUM && free == old(free) && forall j :: 0 <= j < i ==> !free[j]
      {
        if free[i] {
          free := free[i := false];
          return Some(i);
        }
        i := i + 1;
      }
      CountNone(free);
      return None;
    }

    // The result false is one of the two panics.
    method FreeDesc(i: nat) returns (ok: bool)
      requires |free| == NUM
      modifies `free
      ensures ok <==> i < NUM && !old(free)[i]
      ensures free == if ok then old(free)[i := true] else old(free)
    {
      if i >= NUM {
        return false;
      }
      if free[i] {
        return false;
      }
      free := free[i := true];
      return true;
    }

    // Three descriptors, or none if there are not enough.
    method Alloc3Desc() returns (r: Option<(nat, nat, nat)>, ok: bool)
      requires |free| == NUM
      modifies `free
      ensures ok
      ensures r.None? <==> Count(old(free)) < 3
      ensures r.None? ==> free == old(free)
      ensures r.Some? ==>
        var (a, b, c) := r.value;
        && a < NUM && b < NUM && c < NUM && a != b && a != c && b != c && old(free)[a] && old(free)[b] && old(free)[c]
        && free == old(free)[a := false][b := false][c := false]
    {
      var idx: seq<nat> := [];
      var i := 0;
      while i < 3
        invariant i <= 3 && |idx| == i && |free| == NUM && Count(free) + i == Count(old(free))
        invariant forall k :: 0 <= k < i ==> idx[k] < NUM && old(free)[idx[k]]
        invariant forall j, k :: 0 <= j < k < i ==> idx[j] != idx[k]
        invariant forall n: nat :: n < NUM ==> (free[n] <==> old(free)[n] && n !in idx)
      {
        ghost var before := free;
        var d := AllocDesc();
        if d.None? {
          ok := GiveBack(idx, old(free));
          return None, ok;
        }
        CountUpdate(before, d.value, false);
        idx := idx + [d.value];
        i := i + 1;
      }
      assert free == old(free)[idx[0] := false][idx[1] := false][idx[2] := false] by {
        assert idx == [idx[0], idx[1], idx[2]];
      }
      return Some((idx[0], idx[1], idx[2])), true;
    }

    // The undo loop of alloc3_desc.
    method GiveBack(idx: seq<nat>, ghost before: seq<bool>) returns (ok: bool)
      requires |free| == NUM == |before|
      requires forall k :: 0 <= k < |idx| ==> idx[k] < NUM && before[idx[k]]
      requires forall j, k :: 0 <= j < k < |idx| ==> idx[j] != idx[k]
      requires forall n: nat :: n < NUM ==> (free[n] <==> before[n] && n !in idx)
      modifies `free
      ensures ok && free == before
    {
      var j := 0;
      while j < |idx|
        invariant j <= |idx| && |free| == NUM
        invariant forall n: nat :: n < NUM ==> (free[n] <==> before[n] && n !in idx[j..])
      {
        assert idx[j..] == [idx[j]] + idx[j + 1..];
        assert idx[j] !in idx[j + 1..];
        ok := FreeDesc(idx[j]);
        if !ok {
          return;
        }
        j := j + 1;
      }
      return true;
    }

    // The first half of virtio_disk_rw: offer a request for a buffer to the device.  None
    // means that the caller has to sleep until descriptors are free.
    method Submit(b: nat) returns (r: Option<nat>)
      requires Valid() && forall h :: h in g.requests ==> g.requests[h].buf != b
      modifies this
      ensures Valid()
      ensures r.None? <==> |old(g).requests| == 2
      ensures r.None? ==> free == old(free) && g == old(g) && busy == old(busy)
      ensures r.Some? ==>
        && r.value !in old(g).requests && r.value in g.requests
             && g.requests == old(g).requests[r.value := g.requests[r.value]]
        && g.requests[r.value].buf == b && busy == old(busy) + {b}
        && g.places == Offered(old(g).places, r.value) && g.offers == old(g).offers + 1
        && |avail| == NUM && avail[Pos(old(g).offers)] == r.value
    {
      hide Chains, Buffers, PlacesOk, Queue, Count, Indices;
      FewRequests();
      var idx, ok := Alloc3Desc();
      if idx.None? {
        return None;
      }
      var (a, m, t) := idx.value;
      Offer(b, a, m, t, old(free));
      return Some(a);
    }

    // Format the descriptors of a request and put its head on the available ring.  Before
    // they were taken, the descriptors were free as in free0.
    method Offer(b: nat, a: nat, m: nat, t: nat, ghost free0: seq<bool>)
      requires DiskOk(free0, desc, info, busy, avail, availIdx, devIdx, usedRing, usedId, usedIdx, g)
      requires forall h :: h in g.requests ==> g.requests[h].buf != b
      requires Proper(a, Request(b, m, t)) && |free0| == NUM && |g.own| == NUM && |g.places.offered| < NUM
      requires free0[a] && free0[m] && free0[t] && free == Set3(free0, a, Request(b, m, t), false)
      modifies this
      ensures Valid() && a !in old(g).requests && busy == old(busy) + {b}
        && g == OfferedGhost(old(g), a, Request(b, m, t))
      ensures |avail| == NUM && avail[Pos(old(g).offers)] == a
    {
      hide DiskOk, Set3, Linked, Pos, Next16, OfferedGhost;
      ghost var q := Request(b, m, t);
      OfferOk(free0, free, desc, info, busy, avail, availIdx, devIdx, usedRing, usedId, usedIdx, g, a, q);
      desc := Linked(desc, a, m, t);
      busy := busy + {b};
      info := info[a := Some(b)];
      avail := avail[Pos(availIdx) := a];
      availIdx := Next16(availIdx);
      g := OfferedGhost(g, a, q);
    }

    // 3 descriptors for each request, 8 in all.
    lemma FewRequests()
      requires Valid()
      ensures Count(free) + 3 * |g.requests| == NUM && |g.requests| <= 2
        && |free| == NUM == |desc| == |g.own| == |info| == |avail|
      ensures |g.requests| == |g.places.offered| + |g.places.taken| + |g.places.completed| + |g.places.done|
      ensures Count(free) < 3 <==> |g.requests| == 2
    {
      PlacesSize(g.requests, g.places);
    }

    // The device takes the next request from the available ring.
    method DeviceTake() returns (h: Option<nat>)
      requires Valid()
      modifies `devIdx, `g
      ensures Valid() && (h.None? <==> old(g).places.offered == {})
      ensures h.None? ==> g == old(g)
      ensures h.Some? ==>
        && h.value in old(g).places.offered && |avail| == NUM && h.value == avail[Pos(old(g).takes)]
        && g == old(g).(places := Taken(old(g).places, h.value), takes := old(g).takes + 1)
    {
      hide Chains, Buffers, Queue, Count, Indices, PlacesOk, Pos, Next16, Taken, Completed;
      QueueShape(avail, g.takes, g.offers, g.places.offered);
      FewRequests();
      TakeIndex(availIdx, g.offers, devIdx, g.takes, usedId, g.completes, usedIdx, g.sees);
      if devIdx == availIdx {
        return None;
      }
      QueuePop(avail, g.takes, g.offers, g.places.offered);
      PlacesTake(g.requests, g.places, avail[Pos(g.takes)]);
      h := Some(avail[Pos(devIdx)]);
      devIdx := Next16(devIdx);
      g := g.(places := Taken(g.places, h.value), takes := g.takes + 1);
    }

    // The device completes any request it has taken, with status 0.
    method DeviceComplete(h: nat)
      requires Valid() && h in g.places.taken
      modifies `usedRing, `usedId, `g
      ensures Valid()
      ensures g == old(g).(places := Completed(old(g).places, h), completes := old(g).completes + 1)
    {
      hide Chains, Buffers, Queue, Count, Indices, PlacesOk, Pos, Next16, Taken, Completed;
      FewRequests();
      PlacesComplete(g.requests, g.places, h);
      QueueShape(usedRing, g.sees, g.completes, g.places.completed);
      QueuePush(usedRing, g.sees, g.completes, g.places.completed, h);
      CompleteIndex(availIdx, g.offers, devIdx, g.takes, usedId, g.completes, usedIdx, g.sees);
      usedRing := usedRing[Pos(usedId) := h];
      usedId := Next16(usedId);
      g := g.(places := Completed(g.places, h), completes := g.completes + 1);
    }

    // One round of virtio_disk_intr, for the next entry of the used ring.
    method See() returns (ghost h: nat)
      requires Valid() && g.sees < g.completes
      modifies `usedIdx, `busy, `g
      ensures Valid() && h in old(g).places.completed && h in g.requests
      ensures g == old(g).(places := Seen(old(g).places, h), sees := old(g).sees + 1)
      ensures busy == old(busy) - {g.requests[h].buf}
    {
      hide Chains, Queue, Count, Indices, PlacesOk, Buffers, Pos, Seen;
      FewRequests();
      SeeNext(availIdx, g.offers, devIdx, g.takes, usedId, g.completes, usedIdx, g.sees, usedRing, g.places.completed);
      var id := usedRing[usedIdx];
      h := id;
      PlacesSee(info, busy, g.requests, g.places, id);
      busy := busy - {info[id].value};
      usedIdx := Pos(usedIdx + 1);
      g := g.(places := Seen(g.places, id), sees := g.sees + 1);
    }

    // The test of the loop of virtio_disk_intr is exact.
    lemma Waiting()
      requires Valid()
      ensures Pos(usedIdx) != Pos(usedId) <==> g.sees < g.completes
      ensures g.sees < g.completes <==> g.places.completed != {}
    {
      hide Chains, Count, Indices, Buffers, PlacesOk, Pos;
      FewRequests();
      SeeIndex(availIdx, g.offers, devIdx, g.takes, usedId, g.completes, usedIdx, g.sees);
    }

    // virtio_disk_intr: exactly the buffers of the waiting completions are given back.
    method Interrupt()
      requires Valid()
      modifies `usedIdx, `busy, `g
      ensures Valid()
      ensures g == old(g).(places :=
                           old(g).places.(completed := {}, done := old(g).places.done + old(g).places.completed),
                               sees := g.sees)
      ensures busy == old(busy) - BufsOf(g.requests, old(g).places.completed)
    {
      hide Chains, Queue, Count, Indices, Buffers, PlacesOk, BufsOf, Pos;
      ghost var places0, seen: set<nat> := g.places, {};
      Waiting();
      BufsNone(g.requests);
      while Pos(usedIdx) != Pos(usedId)
        invariant Valid() && (Pos(usedIdx) != Pos(usedId) <==> g.sees < g.completes)
        invariant g.sees < g.completes <==> g.places.completed != {}
        invariant g == old(g).(places := places0.(completed := places0.completed - seen, done := places0.done + seen),
                               sees := g.sees)
        invariant seen <= places0.completed && busy == old(busy) - BufsOf(g.requests, seen)
        decreases g.places.completed
      {
        ghost var h := See();
        Waiting();
        BufsMore(g.requests, seen, h);
        seen := seen + {h};
      }
      assert seen == places0.completed;
    }

    // The second half of virtio_disk_rw, once b->disk is 0: give the descriptors back.  The
    // result false would be a panic of free_desc.
    method Finish(a: nat) returns (ok: bool)
      requires Valid() && a in g.requests && g.requests[a].buf !in busy
      modifies `free, `info, `g
      ensures Valid() && ok && a in old(g).places.done
      ensures g == old(g).(requests := old(g).requests - {a}, own := g.own, places := Finished(old(g).places, a))
    {
      hide Chains, Queue, Count, Indices, Buffers, PlacesOk, Set3, Finished;
      ghost var r := g.requests[a];
      FewRequests();
      FinishChains(free, desc, g.requests, g.own, a);
      FinishPlaces(info, busy, g.requests, g.places, a);
      info := info[a := None];
      ok := FreeChain(a, r);
      g := g.(requests := g.requests - {a}, own := Set3(g.own, a, r, None), places := Finished(g.places, a));
    }

    // free_chain on the chain of a request.
    method FreeChain(a: nat, ghost r: Request) returns (ok: bool)
      requires |free| == NUM == |desc| && Proper(a, r) && !free[a] && !free[r.mid] && !free[r.tail]
      requires desc[a] == Desc(true, r.mid) && desc[r.mid] == Desc(true, r.tail) && !desc[r.tail].hasNext
      modifies `free
      ensures ok && free == Set3(old(free), a, r, true)
    {
      var i := a;
      ghost var n := 0;
      while true
        invariant n <= 2 && i == (if n == 0 then a else if n == 1 then r.mid else r.tail)
        invariant free == (if n == 0 then old(free) else if n == 1 then old(free)[a := true]
                           else old(free)[a := true][r.mid := true])
        decreases 2 - n
      {
        ok := FreeDesc(i);
        if !ok {
          return;
        }
        if desc[i].hasNext {
          i := desc[i].next;
          n := n + 1;
        } else {
          break;
        }
      }
    }
  }

  lemma PlacesTake(requests: map<nat, Request>, p: Places, h: nat)
    requires PlacesOk(requests, p) && h in p.offered
    ensures var p' := Taken(p, h);
      PlacesOk(requests, p') && p'.offered == p.offered - {h} && p'.completed == p.completed && p'.done == p.done
  {
  }

  lemma PlacesComplete(requests: map<nat, Request>, p: Places, h: nat)
    requires PlacesOk(requests, p) && h in p.taken
    ensures var p' := Completed(p, h);
      && h !in p.completed && PlacesOk(requests, p')
      && p'.completed == p.completed + {h} && p'.offered == p.offered && p'.done == p.done
  {
  }

  lemma PlacesSee(info: seq<Option<nat>>, busy: set<nat>, requests: map<nat, Request>, p: Places, h: nat)
    requires PlacesOk(requests, p) && Buffers(info, busy, requests, p.done) && h in p.completed
    ensures h in requests && h < |info| && info[h] == Some(requests[h].buf)
    ensures var p' := Seen(p, h);
      && PlacesOk(requests, p') && Buffers(info, busy - {requests[h].buf}, requests, p'.done)
      && p'.completed == p.completed - {h} && p'.offered == p.offered
  {
    assert h in requests.Keys;
  }

  // The buffers of some requests.
  ghost function BufsOf(requests: map<nat, Request>, hs: set<nat>): set<nat> {
    set h | h in hs && h in requests :: requests[h].buf
  }

  lemma BufsNone(requests: map<nat, Request>)
    ensures BufsOf(requests, {}) == {}
  {
  }

  lemma BufsMore(requests: map<nat, Request>, hs: set<nat>, h: nat)
    requires h in requests
    ensures BufsOf(requests, hs + {h}) == BufsOf(requests, hs) + {requests[h].buf}
  {
  }

  lemma FinishChains(free: seq<bool>, desc: seq<Desc>, requests: map<nat, Request>, own: seq<Option<nat>>, h: nat)
    requires Chains(free, desc, requests, own) && Count(free) + 3 * |requests| == NUM && h in requests
    ensures var r := requests[h];
      && Proper(h, r) && |free| == NUM && !free[h] && !free[r.mid] && !free[r.tail]
      && desc[h] == Desc(true, r.mid) && desc[r.mid] == Desc(true, r.tail) && !desc[r.tail].hasNext
      && Chains(Set3(free, h, r, true), desc, requests - {h}, Set3(own, h, r, None))
      && Count(Set3(free, h, r, true)) + 3 * |requests - {h}| == NUM
  {
    hide Count, Set3, Flagged, Marked;
    var r := requests[h];
    assert ChainAt(desc, requests, own, h);
    Set3Flags(free, h, r, true);
    Set3Marks(own, h, r, None);
    ChainsDrop(free, desc, requests, own, h, Set3(free, h, r, true), Set3(own, h, r, None));
    MapLess(requests, h);
  }

  lemma FinishPlaces(info: seq<Option<nat>>, busy: set<nat>, requests: map<nat, Request>, p: Places, h: nat)
    requires PlacesOk(requests, p) && Buffers(info, busy, requests, p.done) && h in requests && requests[h].buf !in busy
    ensures var p' := Finished(p, h);
      && h in p.done && h < |info| && PlacesOk(requests - {h}, p')
      && Buffers(info[h := None], busy, requests - {h}, p'.done) && p'.offered == p.offered
           && p'.completed == p.completed
  {
    assert (requests - {h}).Keys == requests.Keys - {h};
  }

  lemma OfferChains(free0: seq<bool>, free: seq<bool>, desc: seq<Desc>, requests: map<nat, Request>,
                    own: seq<Option<nat>>, h: nat, r: Request)
    requires Chains(free0, desc, requests, own) && Count(free0) + 3 * |requests| == NUM
    requires Proper(h, r) && free0[h] && free0[r.mid] && free0[r.tail] && free == Set3(free0, h, r, false)
    ensures h !in requests
    ensures Chains(free, Linked(desc, h, r.mid, r.tail), requests[h := r], Set3(own, h, r, Some(h)))
    ensures Count(free) + 3 * |requests[h := r]| == NUM
  {
    hide Count, Set3, Linked, Flagged, Marked, InChain;
    Set3Flags(free0, h, r, false);
    Set3Marks(own, h, r, Some(h));
    LinkDescs(desc, h, r);
    ChainsAdd(free0, desc, requests, own, h, r, free, Linked(desc, h, r.mid, r.tail), Set3(own, h, r, Some(h)));
    MapMore(requests, h, r);
  }

  lemma BuffersAdd(info: seq<Option<nat>>, busy: set<nat>, requests: map<nat, Request>, p: Places, h: nat, r: Request)
    requires Buffers(info, busy, requests, p.done) && PlacesOk(requests, p) && h < NUM && h !in requests
    requires forall g :: g in requests ==> requests[g].buf != r.buf
    ensures h !in p.offered && |info| == NUM
    ensures Buffers(info[h := Some(r.buf)], busy + {r.buf}, requests[h := r], p.done)
    ensures var p' := Offered(p, h);
      && PlacesOk(requests[h := r], p') && p'.offered == p.offered + {h} && p'.completed == p.completed
           && p'.done == p.done
  {
    assert h !in requests.Keys;
    assert requests[h := r].Keys == requests.Keys + {h};
  }
}
