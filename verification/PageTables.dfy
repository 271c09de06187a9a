// Sv39 page tables (kernel/vm.c) over the page allocator (kernel/kalloc.c).
//
// Physical pages are page numbers.  A ghost map `own` gives every page of the allocator's
// pool exactly one owner: the free list, a caller of kalloc, or one place of one page
// table, named by the indices that lead to it from the root.
module PageTables {
  import opened Wrappers

  const PGSIZE: nat := 4096
  const MAXVA: nat := 0x40_0000_0000        // 1 << 38
  const ENTRIES: nat := 512

  // The flag bits of an entry; rest holds the five bits above PTE_U.
  datatype Flags = Flags(v: bool, r: bool, w: bool, x: bool, u: bool, rest: nat)

  const NO_FLAGS := Flags(false, false, false, false, false, 0)
  const SUBTABLE := NO_FLAGS.(v := true)      // PTE_V alone: a lower-level table

  datatype Pte = Pte(ppn: nat, flags: Flags)

  const EMPTY := Pte(0, NO_FLAGS)

  predicate IsValid(e: Pte) {
    e.flags.v
  }

  // A leaf has some of R, W and X.
  predicate IsLeaf(f: Flags) {
    f.r || f.w || f.x
  }

  // A place in a page table: the root table, a second-level table, a third-level table
  // or a page.
  datatype Path = Top | Mid(i2: nat) | Low(i2: nat, i1: nat) | Page(i2: nat, i1: nat, i0: nat)

  // Indices in range; MAXVA leaves the upper half of the root table unused.
  predicate InBounds(p: Path) {
    match p
    case Top => true
    case Mid(a) => a < ENTRIES / 2
    case Low(a, b) => a < ENTRIES / 2 && b < ENTRIES
    case Page(a, b, c) => a < ENTRIES / 2 && b < ENTRIES && c < ENTRIES
  }

  function Child(p: Path, i: nat): Path
    requires !p.Page?
  {
    match p
    case Top => Mid(i)
    case Mid(a) => Low(a, i)
    case Low(a, b) => Page(a, b, i)
  }

  function Parent(p: Path): Path
    requires !p.Top?
  {
    match p
    case Mid(a) => Top
    case Low(a, b) => Mid(a)
    case Page(a, b, c) => Low(a, b)
  }

  // The index of a place in its parent table.
  function Index(p: Path): nat
    requires !p.Top?
  {
    match p
    case Mid(a) => a
    case Low(a, b) => b
    case Page(a, b, c) => c
  }

  // The three index fields of a virtual address (PX in kernel/riscv.h).
  function Px(level: nat, va: nat): (i: nat)
    requires level < 3
    ensures i < ENTRIES
  {
    if level == 0 then (va / 0x1000) % ENTRIES
    else if level == 1 then (va / 0x20_0000) % ENTRIES
    else (va / 0x4000_0000) % ENTRIES
  }

  function PathOf(va: nat): (p: Path)
    ensures p.Page?
  {
    Page(Px(2, va), Px(1, va), Px(0, va))
  }

  // The page address a triple of indices stands for.
  function AddressOf(p: Path): nat
    requires p.Page?
  {
    p.i2 * 0x4000_0000 + p.i1 * 0x20_0000 + p.i0 * 0x1000
  }

  // Indices and pages below MAXVA correspond one to one.
  lemma PathRoundTrip(va: nat)
    requires va < MAXVA
    ensures InBounds(PathOf(va)) && AddressOf(PathOf(va)) == va - va % PGSIZE
  {
    var v0 := va / 0x1000;
    var v1 := v0 / ENTRIES;
    var v2 := v1 / ENTRIES;
    assert va / 0x20_0000 == v1 && va / 0x4000_0000 == v2 < ENTRIES / 2;
    assert v0 == ENTRIES * v1 + v0 % ENTRIES && v1 == ENTRIES * v2 + v1 % ENTRIES;
  }

  lemma AddressRoundTrip(p: Path)
    requires p.Page? && InBounds(p)
    ensures AddressOf(p) < MAXVA && PathOf(AddressOf(p)) == p
  {
    var va, high := AddressOf(p), p.i2 * ENTRIES + p.i1;
    assert va == 0x1000 * (high * ENTRIES + p.i0) && va == 0x20_0000 * high + p.i0 * 0x1000;
    assert va / 0x1000 == high * ENTRIES + p.i0;
    assert va / 0x20_0000 == high;
    assert va / 0x4000_0000 == p.i2;
    assert (high * ENTRIES + p.i0) % ENTRIES == p.i0 && high % ENTRIES == p.i1 && p.i2 % ENTRIES == p.i2;
  }

  // Appending a bit, and taking it off again.
  function Push(n: nat, b: bool): nat { 2 * n + if b then 1 else 0 }
  function Half(n: nat): nat { n / 2 }
  predicate LowBit(n: nat) { n % 2 == 1 }

  lemma HalfPush(n: nat, b: bool)
    ensures Half(Push(n, b)) == n && LowBit(Push(n, b)) == b
  {
  }

  // The raw 64-bit entry: PA2PTE(pa) | flags, bit 0 being PTE_V and the page number
  // starting at bit 10.
  function Encode(e: Pte): nat {
    Push(Push(Push(Push(Push(32 * e.ppn + e.flags.rest, e.flags.u), e.flags.x), e.flags.w), e.flags.r), e.flags.v)
  }

  function Decode(raw: nat): Pte {
    var a := Half(raw);
    var b := Half(a);
    var c := Half(b);
    var d := Half(c);
    var e := Half(d);
    Pte(e / 32, Flags(LowBit(raw), LowBit(a), LowBit(b), LowBit(c), LowBit(d), e % 32))
  }

  lemma EncodeRoundTrip(e: Pte)
    requires e.flags.rest < 32
    ensures Decode(Encode(e)) == e
  {
    hide Push, Half, LowBit;
    var f := e.flags;
    var n5 := 32 * e.ppn + f.rest;
    var n4 := Push(n5, f.u);
    var n3 := Push(n4, f.x);
    var n2 := Push(n3, f.w);
    HalfPush(n5, f.u);
    HalfPush(n4, f.x);
    HalfPush(n3, f.w);
    HalfPush(n2, f.r);
    HalfPush(Push(n2, f.r), f.v);
  }

  // ---- ownership of pages ----

  datatype Key = Key(root: nat, path: Path)

  function ChildKey(k: Key, i: nat): Key
    requires !k.path.Page?
  {
    Key(k.root, Child(k.path, i))
  }

  // Held: with a caller of kalloc and in no table.  Lent: with a caller, and mapped by
  // tables that do not own it (a trap frame).
  datatype Owner = Free | Held | Lent | At(key: Key)

  ghost predicate InRange(r: (nat, nat), p: nat) {
    r.0 <= p < r.1
  }

  // Every page of the pool has one owner; the free list holds exactly the free pages,
  // once each, and the table pages are those owned by a table place.
  ghost predicate PagesInv(pool: (nat, nat), free: seq<nat>, tables: map<nat, seq<Pte>>, own: map<nat, Owner>) {
    && (forall p: nat :: p in own <==> InRange(pool, p))
    && (forall p: nat :: p in free <==> p in own && own[p] == Free)
    && (forall i, j :: 0 <= i < j < |free| ==> free[i] != free[j])
    && (forall p: nat :: p in tables <==> p in own && own[p].At? && !own[p].key.path.Page?)
  }

  ghost predicate PlacesInv(own: map<nat, Owner>, at: map<Key, nat>) {
    && (forall k :: k in at ==> at[k] in own && own[at[k]] == At(k))
    && (forall p :: p in own && own[p].At? ==> own[p].key in at && at[own[p].key] == p)
    && (forall k :: k in at ==> InBounds(k.path))
    && (forall k :: k in at && k.path.Top? ==> at[k] == k.root)
    && (forall k :: k in at && !k.path.Top? ==> Key(k.root, Parent(k.path)) in at)
  }

  // Entry i of the table at place k: an interior entry is valid exactly when the table
  // below exists and then points to it; a page entry is a leaf, and points to the page
  // the table owns there or to a page owned elsewhere.
  ghost predicate EntryOk(own: map<nat, Owner>, at: map<Key, nat>, k: Key, i: nat, e: Pte)
    requires !k.path.Page?
  {
    var c := ChildKey(k, i);
    if k.path.Low? then
      && (c in at ==> IsValid(e) && e.ppn == at[c])
      && (IsValid(e) ==> IsLeaf(e.flags) && (c in at || (e.ppn in own ==> own[e.ppn] == Lent)))
    else
      && (IsValid(e) <==> c in at)
      && (c in at ==> e == Pte(at[c], SUBTABLE))
  }

  ghost predicate EntriesInv(tables: map<nat, seq<Pte>>, own: map<nat, Owner>, at: map<Key, nat>) {
    forall k :: k in at && !k.path.Page? ==>
      && at[k] in tables && |tables[at[k]]| == ENTRIES
      && forall i: nat :: i < ENTRIES ==> EntryOk(own, at, k, i, tables[at[k]][i])
  }

  ghost predicate Inv(pool: (nat, nat), free: seq<nat>, tables: map<nat, seq<Pte>>,
                      own: map<nat, Owner>, at: map<Key, nat>) {
    PagesInv(pool, free, tables, own) && PlacesInv(own, at) && EntriesInv(tables, own, at)
  }

  // The flat map: the entry the table with this root has for page number v.
  ghost function Flat(tables: map<nat, seq<Pte>>, at: map<Key, nat>, root: nat, v: nat): Option<Pte>
  {
    var p := PathOf(v * PGSIZE);
    var k := Key(root, Parent(p));
    if k in at && at[k] in tables && p.i0 < |tables[at[k]]| && IsValid(tables[at[k]][p.i0])
    then Some(tables[at[k]][p.i0]) else None
  }

  const NPAGES: nat := MAXVA / PGSIZE

  ghost predicate SameFlat(tables: map<nat, seq<Pte>>, at: map<Key, nat>,
                           tables': map<nat, seq<Pte>>, at': map<Key, nat>) {
    forall r: nat, v: nat :: v < NPAGES ==> Flat(tables', at', r, v) == Flat(tables, at, r, v)
  }

  // ---- single updates ----

  type Tables = map<nat, seq<Pte>>

  // Entry i of the table at place k replaced.
  ghost function SetEntry(tables: Tables, at: map<Key, nat>, k: Key, i: nat, e: Pte): Tables
    requires k in at && at[k] in tables && i < |tables[at[k]]|
  {
    tables[at[k] := tables[at[k]][i := e]]
  }

  // A page that is not free changes hands.
  lemma PagesRetag(pool: (nat, nat), free: seq<nat>, tables: Tables, own: map<nat, Owner>, p: nat, o: Owner,
                   tables': Tables)
    requires PagesInv(pool, free, tables, own) && p in own && own[p] != Free && o != Free
    requires tables'.Keys == if o.At? && !o.key.path.Page? then tables.Keys + {p} else tables.Keys - {p}
    ensures PagesInv(pool, free, tables', own[p := o])
  {
    forall q: nat ensures q in tables' <==> q in own[p := o] && own[p := o][q].At? && !own[p := o][q].key.path.Page? {
      assert q in tables'.Keys <==> q in tables';
      assert q in tables.Keys <==> q in tables;
    }
  }

  // A new place c, filled by page p.
  lemma AddPlace(own: map<nat, Owner>, at: map<Key, nat>, k: Key, i: nat, p: nat)
    requires PlacesInv(own, at) && k in at && !k.path.Page? && InBounds(Child(k.path, i)) && ChildKey(k, i) !in at
    requires p in own && !own[p].At?
    ensures PlacesInv(own[p := At(ChildKey(k, i))], at[ChildKey(k, i) := p])
  {
    assert Parent(Child(k.path, i)) == k.path;
  }

  // Hanging a fresh, zeroed table under an invalid interior entry.
  lemma AddTableEntries(tables: Tables, own: map<nat, Owner>, at: map<Key, nat>, k: Key, i: nat, p: nat)
    requires PlacesInv(own, at) && EntriesInv(tables, own, at)
    requires k in at && (k.path.Top? || k.path.Mid?) && i < ENTRIES && ChildKey(k, i) !in at
    requires p in own && own[p] == Held
    ensures var c := ChildKey(k, i);
      var tables' := SetEntry(tables[p := seq(ENTRIES, _ => EMPTY)], at, k, i, Pte(p, SUBTABLE));
      EntriesInv(tables', own[p := At(c)], at[c := p])
  {
    var c := ChildKey(k, i);
    var own', at' := own[p := At(c)], at[c := p];
    var tables' := SetEntry(tables[p := seq(ENTRIES, _ => EMPTY)], at, k, i, Pte(p, SUBTABLE));
    forall k' | k' in at' && !k'.path.Page?
      ensures at'[k'] in tables' && |tables'[at'[k']]| == ENTRIES
      ensures forall j: nat :: j < ENTRIES ==> EntryOk(own', at', k', j, tables'[at'[k']][j])
    {
      if k' == c {
        assert forall j: nat :: j < ENTRIES ==> ChildKey(c, j) !in at' by {
          forall j: nat | j < ENTRIES ensures ChildKey(c, j) !in at' {
            assert Key(c.root, Parent(Child(c.path, j))) == c;
          }
        }
      } else {
        assert at[k'] in tables && |tables[at[k']]| == ENTRIES;
        forall j: nat | j < ENTRIES ensures EntryOk(own', at', k', j, tables'[at'[k']][j]) {
          assert EntryOk(own, at, k', j, tables[at[k']][j]);
          assert ChildKey(k', j) == c <==> k' == k && j == i;
          assert k' != k ==> at[k'] != at[k];
        }
      }
    }
  }

  // Setting a page entry that was invalid.
  lemma SetLeafEntries(tables: Tables, own: map<nat, Owner>, at: map<Key, nat>, k: Key, i: nat, e: Pte, give: bool)
    requires PlacesInv(own, at) && EntriesInv(tables, own, at)
    requires k in at && k.path.Low? && i < ENTRIES && ChildKey(k, i) !in at
    requires IsValid(e) && IsLeaf(e.flags)
    requires if give then e.ppn in own && own[e.ppn] == Held else e.ppn in own ==> own[e.ppn] == Lent
    ensures var c := ChildKey(k, i);
      var tables' := SetEntry(tables, at, k, i, e);
      if give then EntriesInv(tables', own[e.ppn := At(c)], at[c := e.ppn]) else EntriesInv(tables', own, at)
  {
    var c := ChildKey(k, i);
    var own' := if give then own[e.ppn := At(c)] else own;
    var at' := if give then at[c := e.ppn] else at;
    var tables' := SetEntry(tables, at, k, i, e);
    forall k' | k' in at' && !k'.path.Page?
      ensures at'[k'] in tables' && |tables'[at'[k']]| == ENTRIES
      ensures forall j: nat :: j < ENTRIES ==> EntryOk(own', at', k', j, tables'[at'[k']][j])
    {
      assert at[k'] in tables && |tables[at[k']]| == ENTRIES;
      forall j: nat | j < ENTRIES ensures EntryOk(own', at', k', j, tables'[at'[k']][j]) {
        assert EntryOk(own, at, k', j, tables[at[k']][j]);
        assert ChildKey(k', j) == c <==> k' == k && j == i;
        assert k' != k ==> at[k'] != at[k];
      }
    }
  }

  // Clearing a page entry; the page, if the table owned it, goes to a caller.
  lemma ClearLeafEntries(tables: Tables, own: map<nat, Owner>, at: map<Key, nat>, k: Key, i: nat)
    requires PlacesInv(own, at) && EntriesInv(tables, own, at)
    requires k in at && k.path.Low? && i < ENTRIES
    ensures var c := ChildKey(k, i);
      var tables' := SetEntry(tables, at, k, i, EMPTY);
      if c in at then EntriesInv(tables', own[at[c] := Held], at - {c}) else EntriesInv(tables', own, at)
  {
    var c := ChildKey(k, i);
    var own' := if c in at then own[at[c] := Held] else own;
    var at' := if c in at then at - {c} else at;
    var tables' := SetEntry(tables, at, k, i, EMPTY);
    forall k' | k' in at' && !k'.path.Page?
      ensures at'[k'] in tables' && |tables'[at'[k']]| == ENTRIES
      ensures forall j: nat :: j < ENTRIES ==> EntryOk(own', at', k', j, tables'[at'[k']][j])
    {
      assert at[k'] in tables && |tables[at[k']]| == ENTRIES;
      forall j: nat | j < ENTRIES ensures EntryOk(own', at', k', j, tables'[at'[k']][j]) {
        assert EntryOk(own, at, k', j, tables[at[k']][j]);
        assert ChildKey(k', j) == c <==> k' == k && j == i;
        assert k' != k ==> at[k'] != at[k];
      }
    }
  }

  ghost predicate NoChildren(at: map<Key, nat>, c: Key) {
    forall k :: k in at && !k.path.Top? ==> Key(k.root, Parent(k.path)) != c
  }

  lemma RemovePlace(own: map<nat, Owner>, at: map<Key, nat>, c: Key)
    requires PlacesInv(own, at) && c in at && NoChildren(at, c)
    ensures PlacesInv(own[at[c] := Held], at - {c})
  {
  }

  // ---- the flat map under single updates ----

  lemma FlatAddTable(tables: Tables, own: map<nat, Owner>, at: map<Key, nat>, k: Key, i: nat, p: nat)
    requires PlacesInv(own, at) && EntriesInv(tables, own, at)
    requires k in at && (k.path.Top? || k.path.Mid?) && i < ENTRIES && ChildKey(k, i) !in at
    requires p in own && own[p] == Held
    ensures var tables' := SetEntry(tables[p := seq(ENTRIES, _ => EMPTY)], at, k, i, Pte(p, SUBTABLE));
      SameFlat(tables, at, tables', at[ChildKey(k, i) := p])
  {
    var c := ChildKey(k, i);
    var tables' := SetEntry(tables[p := seq(ENTRIES, _ => EMPTY)], at, k, i, Pte(p, SUBTABLE));
    forall r: nat, v: nat | v < NPAGES ensures Flat(tables', at[c := p], r, v) == Flat(tables, at, r, v) {
      var q := Key(r, Parent(PathOf(v * PGSIZE)));
      assert q.path.Low?;
      if q in at {
        assert q != k && at[q] != at[k] && at[q] != p;
      }
    }
  }

  // Page numbers below NPAGES have different indices.
  lemma PathOfInjective(v: nat, w: nat)
    requires v < NPAGES && w < NPAGES && PathOf(v * PGSIZE) == PathOf(w * PGSIZE)
    ensures v == w
  {
    PathRoundTrip(v * PGSIZE);
    PathRoundTrip(w * PGSIZE);
  }

  // at and at' have the same tables, and may differ in the pages they own.
  ghost predicate SameNodes(at: map<Key, nat>, at': map<Key, nat>) {
    forall k: Key :: !k.path.Page? ==> (k in at <==> k in at') && (k in at ==> at[k] == at'[k])
  }

  ghost predicate FlatUpdate(tables: Tables, at: map<Key, nat>, tables': Tables, at': map<Key, nat>,
                             root: nat, w: nat, e: Option<Pte>) {
    forall r: nat, v: nat :: v < NPAGES ==>
      Flat(tables', at', r, v) == if r == root && v == w then e else Flat(tables, at, r, v)
  }

  lemma FlatSetEntry(tables: Tables, own: map<nat, Owner>, at: map<Key, nat>, at': map<Key, nat>,
                     root: nat, w: nat, e: Pte)
    requires PlacesInv(own, at) && EntriesInv(tables, own, at) && SameNodes(at, at') && w < NPAGES
    requires Key(root, Parent(PathOf(w * PGSIZE))) in at
    ensures var p := PathOf(w * PGSIZE);
      FlatUpdate(tables, at, SetEntry(tables, at, Key(root, Parent(p)), Index(p), e), at', root, w,
                 if IsValid(e) then Some(e) else None)
  {
    var p := PathOf(w * PGSIZE);
    var k := Key(root, Parent(p));
    var tables' := SetEntry(tables, at, k, Index(p), e);
    forall r: nat, v: nat | v < NPAGES
      ensures Flat(tables', at', r, v)
           == if r == root && v == w then (if IsValid(e) then Some(e) else None) else Flat(tables, at, r, v)
    {
      var q := PathOf(v * PGSIZE);
      var kq := Key(r, Parent(q));
      if q == p {
        PathOfInjective(v, w);
      }
      if kq in at && kq != k {
        assert at[kq] != at[k];
      }
    }
  }
}
