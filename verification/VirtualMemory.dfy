// kernel/kalloc.c and kernel/vm.c as methods that update the free list and the
// page-table entries in place, each proved against the flat map of PageTables.
module VirtualMemory {
  import opened Wrappers
  import opened PageTables
  import opened TableRemoval

  datatype WalkResult = WalkPanic | Null | Slot(table: nat, index: nat)

  function PgRoundDown(a: nat): nat { a - a % PGSIZE }
  function PgRoundUp(a: nat): nat { (a + PGSIZE - 1) / PGSIZE * PGSIZE }

  // The place whose table holds the index of va at a level.
  function Prefix(va: nat, level: nat): Path
    requires level < 3
  {
    if level == 2 then Top else if level == 1 then Mid(Px(2, va)) else Low(Px(2, va), Px(1, va))
  }

  // From own to own' the table of root may have gained interior tables, taken from the
  // free pages; nothing else changed hands.
  ghost predicate Grown(own: map<nat, Owner>, own': map<nat, Owner>, root: nat) {
    && own'.Keys == own.Keys
    && forall p :: p in own ==> own'[p] == own[p] || (own[p] == Free && IsInterior(own'[p], root))
  }

  predicate IsInterior(o: Owner, root: nat) {
    o.At? && o.key.root == root && (o.key.path.Mid? || o.key.path.Low?)
  }

  lemma GrownTrans(own0: map<nat, Owner>, own1: map<nat, Owner>, own2: map<nat, Owner>, root: nat)
    requires Grown(own0, own1, root) && Grown(own1, own2, root)
    ensures Grown(own0, own2, root)
  {
  }

  // root is a page table of its own.
  ghost predicate IsRoot(own: map<nat, Owner>, root: nat) {
    root in own && own[root] == At(Key(root, Top))
  }

  // A page in no table may change hands without any table noticing.
  lemma RetagLoose(tables: Tables, own: map<nat, Owner>, at: map<Key, nat>, p: nat, o: Owner)
    requires PlacesInv(own, at) && EntriesInv(tables, own, at)
    requires p in own && (own[p] == Free || own[p] == Held) && !o.At?
    ensures PlacesInv(own[p := o], at) && EntriesInv(tables, own[p := o], at)
  {
    forall k | k in at && !k.path.Page?
      ensures forall i: nat :: i < ENTRIES ==> EntryOk(own[p := o], at, k, i, tables[at[k]][i])
    {
      forall i: nat | i < ENTRIES ensures EntryOk(own[p := o], at, k, i, tables[at[k]][i]) {
        assert EntryOk(own, at, k, i, tables[at[k]][i]);
      }
    }
  }

  lemma PagesPop(pool: (nat, nat), free: seq<nat>, tables: Tables, own: map<nat, Owner>)
    requires PagesInv(pool, free, tables, own) && free != []
    ensures free[0] in own && own[free[0]] == Free
    ensures PagesInv(pool, free[1..], tables, own[free[0] := Held])
  {
    assert free[0] in free;
    forall p: nat ensures p in free[1..] <==> p in free && p != free[0] {
      if p in free && p != free[0] {
        var j :| 0 <= j < |free| && free[j] == p;
        assert free[1..][j - 1] == p;
      }
    }
  }

  lemma PagesPush(pool: (nat, nat), free: seq<nat>, tables: Tables, own: map<nat, Owner>, p: nat)
    requires PagesInv(pool, free, tables, own) && p in own && own[p] == Held
    ensures PagesInv(pool, [p] + free, tables, own[p := Free])
  {
    assert p !in free;
  }

  lemma TableAt(pool: (nat, nat), free: seq<nat>, tables: Tables, own: map<nat, Owner>, at: map<Key, nat>, k: Key)
    requires Inv(pool, free, tables, own, at) && k in at && !k.path.Page?
    ensures at[k] in tables && |tables[at[k]]| == ENTRIES && at[k] in own && own[at[k]] == At(k)
  {
  }

  lemma RootAt(pool: (nat, nat), free: seq<nat>, tables: Tables, own: map<nat, Owner>, at: map<Key, nat>, root: nat)
    requires Inv(pool, free, tables, own, at) && IsRoot(own, root)
    ensures Key(root, Top) in at && at[Key(root, Top)] == root
  {
  }

  lemma InteriorEntry(pool: (nat, nat), free: seq<nat>, tables: Tables, own: map<nat, Owner>, at: map<Key, nat>,
                      k: Key, i: nat)
    requires Inv(pool, free, tables, own, at) && k in at && (k.path.Top? || k.path.Mid?) && i < ENTRIES
    ensures at[k] in tables && |tables[at[k]]| == ENTRIES
    ensures IsValid(tables[at[k]][i]) <==> ChildKey(k, i) in at
    ensures ChildKey(k, i) in at ==> tables[at[k]][i].ppn == at[ChildKey(k, i)]
  {
    assert EntryOk(own, at, k, i, tables[at[k]][i]);
  }

  lemma LendKeeps(pool: (nat, nat), free: seq<nat>, tables: Tables, own: map<nat, Owner>, at: map<Key, nat>, p: nat)
    requires Inv(pool, free, tables, own, at) && p in own && own[p] == Held
    ensures Inv(pool, free, tables, own[p := Lent], at)
  {
    hide EntryOk, InBounds, Child, Parent;
    forall k, i: nat | k in at && !k.path.Page? && i < ENTRIES
      ensures EntryOk(own[p := Lent], at, k, i, tables[at[k]][i])
    {
      EntryLent(own, at, k, i, tables[at[k]][i], p);
    }
  }

  lemma EntryLent(own: map<nat, Owner>, at: map<Key, nat>, k: Key, i: nat, e: Pte, p: nat)
    requires !k.path.Page? && EntryOk(own, at, k, i, e) && p in own && own[p] == Held
    ensures EntryOk(own[p := Lent], at, k, i, e)
  {
    hide IsValid, IsLeaf;
  }

  // Without the table at a level there is no translation.
  lemma MissingTable(pool: (nat, nat), free: seq<nat>, tables: Tables, own: map<nat, Owner>, at: map<Key, nat>,
                     root: nat, va: nat, level: nat)
    requires Inv(pool, free, tables, own, at) && va < MAXVA
    requires 0 < level < 3 && Key(root, Prefix(va, level - 1)) !in at
    ensures Flat(tables, at, root, va / PGSIZE) == None
  {
    PathOfPage(va);
    var k := Key(root, Prefix(va, 0));
    assert k in at ==> Key(root, Parent(k.path)) in at;
  }

  lemma PathOfPage(va: nat)
    ensures PathOf(va / PGSIZE * PGSIZE) == PathOf(va) && Parent(PathOf(va)) == Prefix(va, 0)
  {
    var w := va / PGSIZE * PGSIZE;
    DivDiv(va);
    DivDiv(w);
    assert w / 0x1000 == va / 0x1000;
  }

  lemma DivDiv(a: nat)
    ensures a / 0x20_0000 == a / 0x1000 / ENTRIES && a / 0x4000_0000 == a / 0x1000 / ENTRIES / ENTRIES
  {
  }

  lemma SameFlatTrans(t0: Tables, at0: map<Key, nat>, t1: Tables, at1: map<Key, nat>, t2: Tables, at2: map<Key, nat>)
    requires SameFlat(t0, at0, t1, at1) && SameFlat(t1, at1, t2, at2)
    ensures SameFlat(t0, at0, t2, at2)
  {
  }

  // A page held by a caller becomes the table below entry i of the table at k.
  lemma AddTable(pool: (nat, nat), free: seq<nat>, tables: Tables, own: map<nat, Owner>, at: map<Key, nat>,
                 k: Key, i: nat, p: nat)
    requires Inv(pool, free, tables, own, at) && k in at && (k.path.Top? || k.path.Mid?)
    requires InBounds(Child(k.path, i)) && ChildKey(k, i) !in at && p in own && own[p] == Held
    ensures at[k] in tables && |tables[at[k]]| == ENTRIES && p !in tables
    ensures var c := ChildKey(k, i);
      var tables' := SetEntry(tables[p := seq(ENTRIES, _ => EMPTY)], at, k, i, Pte(p, SUBTABLE));
      && Inv(pool, free, tables', own[p := At(c)], at[c := p])
      && SameFlat(tables, at, tables', at[c := p])
  {
    hide PlacesInv, EntriesInv, SameFlat;
    TableAt(pool, free, tables, own, at, k);
    AddPlace(own, at, k, i, p);
    AddTableEntries(tables, own, at, k, i, p);
    FlatAddTable(tables, own, at, k, i, p);
    var tables1 := tables[p := seq(ENTRIES, _ => EMPTY)];
    PagesRetag(pool, free, tables, own, p, At(ChildKey(k, i)), SetEntry(tables1, at, k, i, Pte(p, SUBTABLE)));
  }

  // The place of page number w under root.
  function PageKey(root: nat, w: nat): (k: Key)
    ensures k.path.Page?
  {
    Key(root, PathOf(w * PGSIZE))
  }

  function TableKey(root: nat, w: nat): (k: Key)
    ensures k.path.Low?
  {
    Key(root, Parent(PathOf(w * PGSIZE)))
  }

  function SlotIndex(w: nat): (i: nat)
    ensures i < ENTRIES
  {
    Index(PathOf(w * PGSIZE))
  }

  // Mapping page w of root to e: with give, the table becomes the owner of the page.
  lemma SetLeaf(pool: (nat, nat), free: seq<nat>, tables: Tables, own: map<nat, Owner>, at: map<Key, nat>,
                root: nat, w: nat, e: Pte, give: bool)
    requires Inv(pool, free, tables, own, at) && w < NPAGES && TableKey(root, w) in at
    requires Flat(tables, at, root, w) == None && IsValid(e) && IsLeaf(e.flags)
    requires if give then e.ppn in own && own[e.ppn] == Held else e.ppn in own ==> own[e.ppn] == Lent
    ensures at[TableKey(root, w)] in tables && |tables[at[TableKey(root, w)]]| == ENTRIES
    ensures var tables' := SetEntry(tables, at, TableKey(root, w), SlotIndex(w), e);
      var c := PageKey(root, w);
      && (give ==>
            && Inv(pool, free, tables', own[e.ppn := At(c)], at[c := e.ppn])
            && FlatUpdate(tables, at, tables', at[c := e.ppn], root, w, Some(e)))
      && (!give ==>
            && Inv(pool, free, tables', own, at)
            && FlatUpdate(tables, at, tables', at, root, w, Some(e)))
  {
    var k, i, c := TableKey(root, w), SlotIndex(w), PageKey(root, w);
    PathRoundTrip(w * PGSIZE);
    TableAt(pool, free, tables, own, at, k);
    assert EntryOk(own, at, k, i, tables[at[k]][i]);
    assert ChildKey(k, i) == c && c !in at;
    SetLeafEntries(tables, own, at, k, i, e, give);
    if give {
      AddPlace(own, at, k, i, e.ppn);
      FlatSetEntry(tables, own, at, at[c := e.ppn], root, w, e);
    } else {
      FlatSetEntry(tables, own, at, at, root, w, e);
    }
    SetLeafPages(pool, free, tables, own, at, root, w, e, give);
    hide PagesInv, PlacesInv, EntriesInv, Flat, EntryOk, FlatUpdate;
  }

  lemma SetLeafPages(pool: (nat, nat), free: seq<nat>, tables: Tables, own: map<nat, Owner>, at: map<Key, nat>,
                     root: nat, w: nat, e: Pte, give: bool)
    requires PagesInv(pool, free, tables, own)
    requires TableKey(root, w) in at && at[TableKey(root, w)] in tables && |tables[at[TableKey(root, w)]]| == ENTRIES
    requires give ==> e.ppn in own && own[e.ppn] == Held
    ensures PagesInv(pool, free, SetEntry(tables, at, TableKey(root, w), SlotIndex(w), e),
                     if give then own[e.ppn := At(PageKey(root, w))] else own)
  {
    hide PathOf;
    if give {
      PagesRetag(pool, free, tables, own, e.ppn, At(PageKey(root, w)),
                 SetEntry(tables, at, TableKey(root, w), SlotIndex(w), e));
    }
  }

  // Unmapping page w of root; if the table owned the page, a caller now holds it.
  lemma ClearLeaf(pool: (nat, nat), free: seq<nat>, tables: Tables, own: map<nat, Owner>, at: map<Key, nat>,
                  root: nat, w: nat)
    requires Inv(pool, free, tables, own, at) && w < NPAGES && TableKey(root, w) in at
    ensures at[TableKey(root, w)] in tables && |tables[at[TableKey(root, w)]]| == ENTRIES
    ensures var tables' := SetEntry(tables, at, TableKey(root, w), SlotIndex(w), EMPTY);
      var c := PageKey(root, w);
      && (c in at ==>
            && Inv(pool, free, tables', own[at[c] := Held], at - {c})
            && FlatUpdate(tables, at, tables', at - {c}, root, w, None))
      && (c !in at ==>
            && Inv(pool, free, tables', own, at)
            && FlatUpdate(tables, at, tables', at, root, w, None))
  {
    hide PagesInv, EntriesInv, FlatUpdate, Flat;
    var k, i, c := TableKey(root, w), SlotIndex(w), PageKey(root, w);
    TableAt(pool, free, tables, own, at, k);
    assert ChildKey(k, i) == c;
    ClearLeafEntries(tables, own, at, k, i);
    ClearLeafPages(pool, free, tables, own, at, root, w);
    if c in at {
      RemovePlace(own, at, c);
      FlatSetEntry(tables, own, at, at - {c}, root, w, EMPTY);
    } else {
      FlatSetEntry(tables, own, at, at, root, w, EMPTY);
    }
  }

  lemma ClearLeafPages(pool: (nat, nat), free: seq<nat>, tables: Tables, own: map<nat, Owner>, at: map<Key, nat>,
                       root: nat, w: nat)
    requires PagesInv(pool, free, tables, own) && PlacesInv(own, at)
    requires TableKey(root, w) in at && at[TableKey(root, w)] in tables && |tables[at[TableKey(root, w)]]| == ENTRIES
    ensures var c := PageKey(root, w);
      PagesInv(pool, free, SetEntry(tables, at, TableKey(root, w), SlotIndex(w), EMPTY),
               if c in at then own[at[c] := Held] else own)
  {
    hide PathOf;
    var c := PageKey(root, w);
    if c in at {
      PagesRetag(pool, free, tables, own, at[c], Held, SetEntry(tables, at, TableKey(root, w), SlotIndex(w), EMPTY));
    }
  }

  // The flat map of root has gained n pages from w on, mapped to pages ppn, ppn + 1, ...
  ghost predicate FlatMapped(tables: Tables, at: map<Key, nat>, tables': Tables, at': map<Key, nat>,
                             root: nat, w: nat, n: nat, ppn: nat, flags: Flags) {
    forall r: nat, v: nat :: v < NPAGES ==>
      Flat(tables', at', r, v)
      == if r == root && w <= v < w + n then Some(Pte(ppn + (v - w), flags)) else Flat(tables, at, r, v)
  }

  // What a caller may map: pages it holds, to be given away, or pages no table owns.
  ghost predicate Mappable(own: map<nat, Owner>, ppn: nat, n: nat, give: bool) {
    forall p: nat :: ppn <= p < ppn + n ==>
      if give then p in own && own[p] == Held else p in own ==> own[p] == Lent
  }

  // The pages given away belong to their new places; besides, interior tables may have
  // been taken from the free pages.
  ghost predicate OwnMapped(own: map<nat, Owner>, own': map<nat, Owner>, root: nat, w: nat, n: nat, ppn: nat,
                            give: bool) {
    && own'.Keys == own.Keys
    && forall p :: p in own ==>
         if give && ppn <= p < ppn + n then own'[p] == At(PageKey(root, w + (p - ppn)))
         else own'[p] == own[p] || (own[p] == Free && IsInterior(own'[p], root))
  }

  lemma OwnMappedGrown(own0: map<nat, Owner>, own1: map<nat, Owner>, own2: map<nat, Owner>, root: nat, w: nat, n: nat,
                       ppn: nat, give: bool)
    requires OwnMapped(own0, own1, root, w, n, ppn, give) && Grown(own1, own2, root)
    ensures OwnMapped(own0, own2, root, w, n, ppn, give)
  {
    forall p | p in own0
      ensures if give && ppn <= p < ppn + n then own2[p] == At(PageKey(root, w + (p - ppn)))
              else own2[p] == own0[p] || (own0[p] == Free && IsInterior(own2[p], root))
    {
      assert p in own1;
    }
  }

  lemma FlatMappedConcat(t0: Tables, at0: map<Key, nat>, t1: Tables, at1: map<Key, nat>, t2: Tables, at2: map<Key, nat>,
                         root: nat, w: nat, n: nat, ppn: nat, flags: Flags)
    requires FlatMapped(t0, at0, t1, at1, root, w, n, ppn, flags)
    requires FlatMapped(t1, at1, t2, at2, root, w + n, 1, ppn + n, flags)
    ensures FlatMapped(t0, at0, t2, at2, root, w, n + 1, ppn, flags)
  {
  }

  lemma OwnMappedConcat(own0: map<nat, Owner>, own1: map<nat, Owner>, own2: map<nat, Owner>, root: nat, w: nat, n: nat,
                        ppn: nat, give: bool)
    requires OwnMapped(own0, own1, root, w, n, ppn, give) && OwnMapped(own1, own2, root, w + n, 1, ppn + n, give)
    requires Mappable(own0, ppn, n + 1, give)
    ensures OwnMapped(own0, own2, root, w, n + 1, ppn, give)
  {
    forall p | p in own0
      ensures if give && ppn <= p < ppn + n + 1 then own2[p] == At(PageKey(root, w + (p - ppn)))
              else own2[p] == own0[p] || (own0[p] == Free && IsInterior(own2[p], root))
    {
      assert p in own1;
    }
  }

  lemma MappableNext(own0: map<nat, Owner>, own1: map<nat, Owner>, root: nat, w: nat, n: nat, m: nat, ppn: nat,
                     give: bool)
    requires OwnMapped(own0, own1, root, w, n, ppn, give) && Mappable(own0, ppn, m, give) && n < m
    ensures Mappable(own1, ppn + n, 1, give) && Mappable(own0, ppn, n + 1, give)
  {
  }

  // The number of pages that the bytes [va, va + size) touch.
  function Span(va: nat, size: nat): (n: nat)
    requires size > 0
    ensures n >= 1
  {
    (va + size - 1) / PGSIZE - va / PGSIZE + 1
  }

  // Pages [w, w + n) exist below MAXVA and root does not map them.
  ghost predicate Unmapped(tables: Tables, at: map<Key, nat>, root: nat, w: nat, n: nat) {
    forall v: nat :: w <= v < w + n ==> v < NPAGES && Flat(tables, at, root, v) == None
  }

  // How many of the pages from oldsz up to newsz bytes are below MAXVA.
  function Reach(oldsz: nat, newsz: nat): nat {
    var w, v := Pages(oldsz), Pages(newsz);
    if v <= w || NPAGES <= w then 0 else if v <= NPAGES then v - w else NPAGES - w
  }

  // Pages [w, w + n) are gone from the flat map of root.
  ghost predicate FlatUnmapped(tables: Tables, at: map<Key, nat>, tables': Tables, at': map<Key, nat>,
                               root: nat, w: nat, n: nat) {
    forall r: nat, v: nat :: v < NPAGES ==>
      Flat(tables', at', r, v) == if r == root && w <= v < w + n then None else Flat(tables, at, r, v)
  }

  // o is the place of one of the pages [w, w + n) of root.
  predicate IsPageIn(o: Owner, root: nat, w: nat, n: nat) {
    o.At? && o.key.root == root && o.key.path.Page? && w <= AddressOf(o.key.path) / PGSIZE < w + n
  }

  // The pages root owned in [w, w + n) have gone to o, and no other page has moved.
  ghost predicate OwnUnmapped(own: map<nat, Owner>, own': map<nat, Owner>, root: nat, w: nat, n: nat, o: Owner) {
    && own'.Keys == own.Keys
    && forall p :: p in own ==> own'[p] == if IsPageIn(own[p], root, w, n) then o else own[p]
  }

  // root owns the pages it maps in [w, w + n).
  ghost predicate OwnsMapped(tables: Tables, at: map<Key, nat>, root: nat, w: nat, n: nat) {
    forall v: nat :: w <= v < w + n && v < NPAGES && Flat(tables, at, root, v).Some? ==> PageKey(root, v) in at
  }

  ghost predicate AllMapped(tables: Tables, at: map<Key, nat>, root: nat, w: nat, n: nat) {
    forall v: nat :: w <= v < w + n ==> v < NPAGES && Flat(tables, at, root, v).Some?
  }

  lemma AllMappedAt(tables: Tables, at: map<Key, nat>, root: nat, w: nat, n: nat, v: nat)
    requires w <= v < w + n
    ensures AllMapped(tables, at, root, w, n) ==> v < NPAGES && Flat(tables, at, root, v).Some?
  {
    if AllMapped(tables, at, root, w, n) {
      assert Flat(tables, at, root, v).Some?;
    }
  }

  lemma PageKeyIn(root: nat, v: nat, w: nat, n: nat)
    requires v < NPAGES
    ensures IsPageIn(At(PageKey(root, v)), root, w, n) <==> w <= v < w + n
  {
    PathRoundTrip(v * PGSIZE);
    assert v * PGSIZE % PGSIZE == 0 && v * PGSIZE / PGSIZE == v;
  }

  // The one page that leaves in a step is the one at place w + n.
  lemma OwnUnmappedStep(pool: (nat, nat), free: seq<nat>, tables: Tables, own0: map<nat, Owner>, own1: map<nat, Owner>,
                        at1: map<Key, nat>, root: nat, w: nat, n: nat, o: Owner)
    requires OwnUnmapped(own0, own1, root, w, n, o) && Inv(pool, free, tables, own1, at1) && w + n < NPAGES && !o.At?
    ensures var c := PageKey(root, w + n);
      OwnUnmapped(own0, if c in at1 then own1[at1[c] := o] else own1, root, w, n + 1, o)
  {
    hide EntriesInv, PagesInv, PageKey, IsPageIn;
    var c := PageKey(root, w + n);
    var own2 := if c in at1 then own1[at1[c] := o] else own1;
    forall p | p in own0 ensures own2[p] == if IsPageIn(own0[p], root, w, n + 1) then o else own0[p] {
      assert p in own1;
      PageInSplit(own0[p], root, w, n);
      if own1[p].At? {
        PageAtKey(own1, at1, root, w + n, p);
      }
    }
  }

  lemma PageInSplit(o: Owner, root: nat, w: nat, n: nat)
    ensures IsPageIn(o, root, w, n + 1) <==> IsPageIn(o, root, w, n) || IsPageIn(o, root, w + n, 1)
    ensures IsPageIn(o, root, w, n + 1) ==> o.At?
  {
    hide AddressOf;
  }

  lemma PageAtKey(own: map<nat, Owner>, at: map<Key, nat>, root: nat, v: nat, p: nat)
    requires PlacesInv(own, at) && p in own && own[p].At? && v < NPAGES
    ensures IsPageIn(own[p], root, v, 1) <==> own[p] == At(PageKey(root, v))
    ensures own[p].key in at && at[own[p].key] == p
  {
    hide AddressOf, PathOf;
    PageKeyIn(root, v, v, 1);
    var q := own[p].key.path;
    assert InBounds(q);
    if IsPageIn(own[p], root, v, 1) {
      SamePage(q, v);
    }
  }

  lemma PageKeysDiffer(at: map<Key, nat>, root: nat, u: nat)
    requires u < NPAGES
    ensures forall v: nat :: u < v < NPAGES ==>
      (PageKey(root, v) in at - {PageKey(root, u)} <==> PageKey(root, v) in at)
  {
    forall v: nat | u < v < NPAGES ensures PageKey(root, v) != PageKey(root, u) {
      if PageKey(root, v) == PageKey(root, u) {
        PathOfInjective(u, v);
      }
    }
  }

  lemma SamePage(q: Path, v: nat)
    requires q.Page? && InBounds(q) && AddressOf(q) / PGSIZE == v
    ensures q == PathOf(v * PGSIZE)
  {
    AddressRoundTrip(q);
    assert AddressOf(q) % PGSIZE == 0;
  }

  // Pages w, w + 1, ... of root are mapped with flags fl[0], fl[1], ... to pages root owns.
  ghost predicate FlatAlloc(tables: Tables, at: map<Key, nat>, tables': Tables, at': map<Key, nat>,
                            root: nat, w: nat, fl: seq<Flags>) {
    && (forall r: nat, v: nat :: v < NPAGES && !(r == root && w <= v < w + |fl|) ==>
          Flat(tables', at', r, v) == Flat(tables, at, r, v))
    && (forall v: nat :: w <= v < w + |fl| && v < NPAGES ==>
          && Flat(tables', at', root, v).Some? && Flat(tables', at', root, v).value.flags == fl[v - w]
          && PageKey(root, v) in at')
  }

  // Pages have only moved from the free list to root: to interior tables and to the
  // pages [w, w + n).
  ghost predicate OwnAlloc(own: map<nat, Owner>, own': map<nat, Owner>, root: nat, w: nat, n: nat) {
    && own'.Keys == own.Keys
    && forall p :: p in own ==>
         own'[p] == own[p] || (own[p] == Free && (IsInterior(own'[p], root) || IsPageIn(own'[p], root, w, n)))
  }

  ghost predicate NoPageIn(own: map<nat, Owner>, root: nat, w: nat, n: nat) {
    forall p :: p in own ==> !IsPageIn(own[p], root, w, n)
  }

  // A table maps the pages it owns.
  lemma OwnedIsMapped(pool: (nat, nat), free: seq<nat>, tables: Tables, own: map<nat, Owner>, at: map<Key, nat>, k: Key)
    requires Inv(pool, free, tables, own, at) && k in at && k.path.Page?
    ensures var v := AddressOf(k.path) / PGSIZE; v < NPAGES && Flat(tables, at, k.root, v).Some?
  {
    hide AddressOf, PathOf, PagesInv;
    var v := AddressOf(k.path) / PGSIZE;
    AddressRoundTrip(k.path);
    SamePage(k.path, v);
    var t, i := Key(k.root, Parent(k.path)), Index(k.path);
    assert t in at && ChildKey(t, i) == k;
    assert EntryOk(own, at, t, i, tables[at[t]][i]);
  }

  // A table owns no page where it maps none.
  lemma UnmappedOwnsNone(pool: (nat, nat), free: seq<nat>, tables: Tables, own: map<nat, Owner>, at: map<Key, nat>,
                         root: nat, w: nat, n: nat)
    requires Inv(pool, free, tables, own, at) && Unmapped(tables, at, root, w, n)
    ensures NoPageIn(own, root, w, n)
  {
    hide PagesInv, EntriesInv, AddressOf, Flat;
    forall p | p in own ensures !IsPageIn(own[p], root, w, n) {
      if own[p].At? && own[p].key.path.Page? {
        OwnedIsMapped(pool, free, tables, own, at, own[p].key);
      }
    }
  }

  lemma AllocNone(t: Tables, at: map<Key, nat>, own: map<nat, Owner>, root: nat, w: nat)
    ensures FlatAlloc(t, at, t, at, root, w, []) && OwnAlloc(own, own, root, w, 0)
  {
  }

  lemma AllocConcat(t0: Tables, at0: map<Key, nat>, t1: Tables, at1: map<Key, nat>, t2: Tables, at2: map<Key, nat>,
                    own0: map<nat, Owner>, own1: map<nat, Owner>, own2: map<nat, Owner>,
                    root: nat, w: nat, fl: seq<Flags>, f: Flags)
    requires FlatAlloc(t0, at0, t1, at1, root, w, fl) && FlatAlloc(t1, at1, t2, at2, root, w + |fl|, [f])
    requires OwnAlloc(own0, own1, root, w, |fl|) && OwnAlloc(own1, own2, root, w + |fl|, 1)
    requires forall k :: k in at1 && k.path.Page? ==> k in at2
    ensures FlatAlloc(t0, at0, t2, at2, root, w, fl + [f]) && OwnAlloc(own0, own2, root, w, |fl| + 1)
  {
    forall p | p in own0
      ensures own2[p] == own0[p]
           || (own0[p] == Free && (IsInterior(own2[p], root) || IsPageIn(own2[p], root, w, |fl| + 1)))
    {
      assert p in own1;
    }
  }

  // Allocating and then freeing the same pages again leaves only interior tables behind.
  lemma AllocUndone(t0: Tables, at0: map<Key, nat>, t1: Tables, at1: map<Key, nat>, t2: Tables, at2: map<Key, nat>,
                    t3: Tables, at3: map<Key, nat>, own0: map<nat, Owner>, own1: map<nat, Owner>, own2: map<nat, Owner>,
                    own3: map<nat, Owner>, root: nat, w: nat, fl: seq<Flags>)
    requires FlatAlloc(t0, at0, t1, at1, root, w, fl) && SameFlat(t1, at1, t2, at2)
    requires FlatUnmapped(t2, at2, t3, at3, root, w, |fl|) && Unmapped(t0, at0, root, w, |fl|)
    requires OwnAlloc(own0, own1, root, w, |fl|) && Grown(own1, own2, root)
    requires OwnUnmapped(own2, own3, root, w, |fl|, Free) && NoPageIn(own0, root, w, |fl|)
    ensures SameFlat(t0, at0, t3, at3) && Grown(own0, own3, root)
  {
    forall p | p in own0 ensures own3[p] == own0[p] || (own0[p] == Free && IsInterior(own3[p], root)) {
      assert p in own1 && p in own2;
    }
  }

  lemma UnmappedAt(tables: Tables, at: map<Key, nat>, root: nat, w: nat, n: nat, v: nat)
    requires Unmapped(tables, at, root, w, n) && w <= v < w + n
    ensures v < NPAGES && Flat(tables, at, root, v) == None && Unmapped(tables, at, root, v, 1)
  {
    assert Flat(tables, at, root, v) == None;
  }

  // Places are kept if their pages stay where they are.
  lemma PlacesKept(own: map<nat, Owner>, at: map<Key, nat>, own': map<nat, Owner>, at': map<Key, nat>)
    requires PlacesInv(own, at) && PlacesInv(own', at')
    requires forall p :: p in own && own[p].At? ==> p in own' && own'[p] == own[p]
    ensures forall k :: k in at ==> k in at' && at'[k] == at[k]
  {
    forall k | k in at ensures k in at' && at'[k] == at[k] {
      assert own[at[k]] == At(k);
    }
  }

  lemma AllocPageOk(pool: (nat, nat), free0: seq<nat>, t0: Tables, own0: map<nat, Owner>, at0: map<Key, nat>,
                    free1: seq<nat>, t1: Tables, own1: map<nat, Owner>, at1: map<Key, nat>,
                    root: nat, w: nat, flags: Flags, p: nat)
    requires Inv(pool, free0, t0, own0, at0) && Inv(pool, free1, t1, own1, at1) && w < NPAGES
    requires p in own0 && own0[p] == Free
    requires FlatMapped(t0, at0, t1, at1, root, w, 1, p, flags)
    requires OwnMapped(own0[p := Held], own1, root, w, 1, p, true)
    ensures FlatAlloc(t0, at0, t1, at1, root, w, [flags]) && OwnAlloc(own0, own1, root, w, 1)
    ensures forall k :: k in at0 ==> k in at1 && at1[k] == at0[k]
  {
    hide PagesInv, EntriesInv, Flat, FlatMapped, FlatAlloc, OwnAlloc, PageKey;
    OwnAllocOne(own0, own1, root, w, p);
    assert own1[p] == At(PageKey(root, w));
    FlatAllocOne(t0, at0, t1, at1, root, w, flags, p);
    PlacesKept(own0, at0, own1, at1);
  }

  lemma FlatAllocOne(t0: Tables, at0: map<Key, nat>, t1: Tables, at1: map<Key, nat>, root: nat, w: nat, flags: Flags,
                     p: nat)
    requires FlatMapped(t0, at0, t1, at1, root, w, 1, p, flags) && PageKey(root, w) in at1
    ensures FlatAlloc(t0, at0, t1, at1, root, w, [flags])
  {
    hide Flat, PageKey;
  }

  lemma OwnAllocOne(own0: map<nat, Owner>, own1: map<nat, Owner>, root: nat, w: nat, p: nat)
    requires p in own0 && own0[p] == Free && w < NPAGES && OwnMapped(own0[p := Held], own1, root, w, 1, p, true)
    ensures OwnAlloc(own0, own1, root, w, 1) && own1[p] == At(PageKey(root, w))
    ensures forall q :: q in own0 && own0[q].At? ==> q in own1 && own1[q] == own0[q]
  {
    hide PageKey, IsPageIn;
    PageKeyIn(root, w, w, 1);
    forall q | q in own0
      ensures own1[q] == own0[q] || (own0[q] == Free && (IsInterior(own1[q], root) || IsPageIn(own1[q], root, w, 1)))
    {
      assert q in own0[p := Held];
    }
  }

  lemma AllocPageFail(pool: (nat, nat), free0: seq<nat>, t0: Tables, own0: map<nat, Owner>, at0: map<Key, nat>,
                      free1: seq<nat>, t1: Tables, own1: map<nat, Owner>, at1: map<Key, nat>,
                      root: nat, w: nat, flags: Flags, p: nat)
    requires Inv(pool, free0, t0, own0, at0) && Inv(pool, free1, t1, own1, at1)
    requires p in own0 && own0[p] == Free
    requires FlatMapped(t0, at0, t1, at1, root, w, 0, p, flags)
    requires OwnMapped(own0[p := Held], own1, root, w, 0, p, true)
    ensures SameFlat(t0, at0, t1, at1) && p in own1 && own1[p] == Held && Grown(own0, own1[p := Free], root)
    ensures forall k :: k in at0 ==> k in at1 && at1[k] == at0[k]
  {
    hide PagesInv, EntriesInv, Flat, PathOf, AddressOf;
    forall q | q in own0
      ensures own1[p := Free][q] == own0[q] || (own0[q] == Free && IsInterior(own1[p := Free][q], root))
    {
      assert q in own0[p := Held];
    }
    PlacesKept(own0, at0, own1, at1);
  }

  function Pages(sz: nat): nat { PgRoundUp(sz) / PGSIZE }

  lemma PagesFacts(sz: nat)
    ensures PgRoundUp(sz) == Pages(sz) * PGSIZE && PgRoundUp(sz) % PGSIZE == 0
    ensures forall n: nat :: n * PGSIZE < sz <==> n < Pages(sz)
    ensures Pages(Pages(sz) * PGSIZE) == Pages(sz) && (sz == 0 ==> Pages(sz) == 0)
  {
    assert PgRoundUp(sz) == Pages(sz) * PGSIZE;
  }

  lemma PagesOf(w: nat)
    ensures Pages(w * PGSIZE) == w
  {
    PagesFacts(w * PGSIZE);
  }

  lemma WholePages(w: nat)
    ensures w * PGSIZE / PGSIZE == w && w * PGSIZE % PGSIZE == 0
  {
  }

  lemma PagesMonotone(a: nat, b: nat)
    requires a <= b
    ensures Pages(a) <= Pages(b)
  {
  }

  // What a table has gained it owns and maps.
  lemma AllocMapped(t0: Tables, at0: map<Key, nat>, t1: Tables, at1: map<Key, nat>, t2: Tables, at2: map<Key, nat>,
                    root: nat, w: nat, fl: seq<Flags>)
    requires FlatAlloc(t0, at0, t1, at1, root, w, fl) && SameFlat(t1, at1, t2, at2)
    requires forall k :: k in at1 ==> k in at2 && at2[k] == at1[k]
    requires fl != [] ==> w + |fl| <= NPAGES
    ensures AllMapped(t2, at2, root, w, |fl|) && OwnsMapped(t2, at2, root, w, |fl|)
  {
    hide Flat, PageKey;
  }

  lemma AllocBeyond(t0: Tables, at0: map<Key, nat>, t1: Tables, at1: map<Key, nat>, root: nat, w: nat, fl: seq<Flags>,
                    n: nat)
    requires FlatAlloc(t0, at0, t1, at1, root, w, fl) && Unmapped(t0, at0, root, w, n) && |fl| < n
    ensures Unmapped(t1, at1, root, w + |fl|, 1)
  {
    hide Flat, PageKey;
    UnmappedAt(t0, at0, root, w, n, w + |fl|);
  }

  // Another table is not affected.
  lemma AllocElsewhere(t0: Tables, at0: map<Key, nat>, t1: Tables, at1: map<Key, nat>, root: nat, w: nat,
                       fl: seq<Flags>, r: nat, v: nat)
    requires FlatAlloc(t0, at0, t1, at1, root, w, fl) && r != root && v < NPAGES
    ensures Flat(t1, at1, r, v) == Flat(t0, at0, r, v)
  {
    hide Flat, PageKey;
  }

  lemma UnmappedBound(tables: Tables, at: map<Key, nat>, root: nat, w: nat, n: nat, m: nat)
    requires Unmapped(tables, at, root, w, n) && m <= n
    ensures m > 0 ==> w + m <= NPAGES
    ensures Unmapped(tables, at, root, w, m)
  {
    hide Flat;
    if m > 0 {
      UnmappedAt(tables, at, root, w, n, w + m - 1);
    }
  }

  // The flags of the first n pages of a table.
  ghost function FlagsOf(tables: Tables, at: map<Key, nat>, root: nat, n: nat): (fl: seq<Flags>)
    ensures |fl| == n
  {
    if n == 0 then []
    else
      FlagsOf(tables, at, root, n - 1)
      + [match Flat(tables, at, root, n - 1) case Some(e) => e.flags case None => NO_FLAGS]
  }

  function Repeated(f: Flags, n: nat): (fl: seq<Flags>)
    ensures |fl| == n
  {
    if n == 0 then [] else Repeated(f, n - 1) + [f]
  }

  const USER_PAGE := Flags(false, true, true, true, true, 0)      // PTE_W | PTE_X | PTE_R | PTE_U

  lemma AllMappedNone(tables: Tables, at: map<Key, nat>, root: nat)
    ensures AllMapped(tables, at, root, 0, 0)
  {
  }

  lemma CopyStep(tables: Tables, at: map<Key, nat>, root: nat, n: nat)
    requires AllMapped(tables, at, root, 0, n) && n < NPAGES && Flat(tables, at, root, n).Some?
    ensures AllMapped(tables, at, root, 0, n + 1)
    ensures FlagsOf(tables, at, root, n + 1)
         == FlagsOf(tables, at, root, n) + [Flat(tables, at, root, n).value.flags]
  {
    hide Flat;
  }

  lemma GrownKeepsRoot(own0: map<nat, Owner>, own1: map<nat, Owner>, root: nat, r: nat)
    requires Grown(own0, own1, root) && IsRoot(own0, r)
    ensures IsRoot(own1, r)
  {
  }

  lemma SameFlatSelf(t: Tables, at: map<Key, nat>)
    ensures SameFlat(t, at, t, at)
  {
  }

  lemma LeaflessNone(t: Tables, at: map<Key, nat>, k: Key)
    ensures Leafless(t, at, k, 0)
  {
  }

  lemma LeaflessAll(t: Tables, at: map<Key, nat>, k: Key, n: nat)
    requires n <= ENTRIES
    ensures Leafless(t, at, k, ENTRIES) ==> Leafless(t, at, k, n)
  {
    if Leafless(t, at, k, ENTRIES) {
    }
  }

  lemma PlacesOf(pool: (nat, nat), free: seq<nat>, t: Tables, own: map<nat, Owner>, at: map<Key, nat>)
    requires Inv(pool, free, t, own, at)
    ensures PlacesInv(own, at)
  {
  }

  // A valid entry without permission bits points to the table below.
  lemma SubtableEntry(pool: (nat, nat), free: seq<nat>, t: Tables, own: map<nat, Owner>, at: map<Key, nat>, k: Key,
                      i: nat)
    requires Inv(pool, free, t, own, at) && k in at && !k.path.Page? && i < ENTRIES
    requires at[k] in t && |t[at[k]]| == ENTRIES && IsValid(t[at[k]][i]) && !IsLeaf(t[at[k]][i].flags)
    ensures (k.path.Top? || k.path.Mid?) && ChildKey(k, i) in at && at[ChildKey(k, i)] == t[at[k]][i].ppn
  {
    hide PagesInv, PlacesInv;
    assert EntryOk(own, at, k, i, t[at[k]][i]);
  }

  lemma MappedEntry(pool: (nat, nat), free: seq<nat>, t: Tables, own: map<nat, Owner>, at: map<Key, nat>, k: Key,
                    i: nat)
    requires Inv(pool, free, t, own, at) && k in at && !k.path.Page? && i < ENTRIES
    requires at[k] in t && |t[at[k]]| == ENTRIES && IsValid(t[at[k]][i]) && IsLeaf(t[at[k]][i].flags)
    ensures !Leafless(t, at, k, ENTRIES)
  {
    hide PagesInv, PlacesInv, EntriesInv, Leafless;
    LeafFound(t, own, at, k, i);
  }

  lemma InvalidEntry(pool: (nat, nat), free: seq<nat>, t0: Tables, at0: map<Key, nat>, own0: map<nat, Owner>,
                     t: Tables, at: map<Key, nat>, own: map<nat, Owner>, k: Key, i: nat)
    requires Inv(pool, free, t, own, at) && k in at && !k.path.Page? && i < ENTRIES
    requires at[k] in t && |t[at[k]]| == ENTRIES && !IsValid(t[at[k]][i])
    requires SameFlat(t0, at0, t, at) && Leafless(t0, at0, k, i) && OwnFreed(own0, own, k, i)
    ensures Leafless(t0, at0, k, i + 1) && OwnFreed(own0, own, k, i + 1)
  {
    hide PagesInv, PlacesInv, Leafless, SameFlat, OwnFreed, Flat;
    assert EntryOk(own, at, k, i, t[at[k]][i]);
    LeaflessSame(t0, at0, t, at, k, i);
    LeaflessSkip(t, own, at, k, i);
    LeaflessSame(t0, at0, t, at, k, i + 1);
    FreedSkip(own0, own, at, k, i);
  }

  // After the tables below the child of k have been freed, the child itself can be removed.
  lemma EmptiedTable(pool: (nat, nat), free: seq<nat>, t1: Tables, at1: map<Key, nat>, own1: map<nat, Owner>,
                     t2: Tables, at2: map<Key, nat>, own2: map<nat, Owner>, k: Key, i: nat, table: nat)
    requires PlacesInv(own1, at1) && k in at1 && at1[k] == table && (k.path.Top? || k.path.Mid?) && i < ENTRIES
    requires ChildKey(k, i) in at1 && ChildKey(k, i) in at2 && at2[ChildKey(k, i)] == at1[ChildKey(k, i)]
    requires Inv(pool, free, t2, own2, at2) && SameFlat(t1, at1, t2, at2)
    requires OwnFreed(own1, own2, ChildKey(k, i), ENTRIES) && Leafless(t1, at1, ChildKey(k, i), ENTRIES)
    ensures k in at2 && at2[k] == table && table in t2 && |t2[table]| == ENTRIES && table != at2[ChildKey(k, i)]
    ensures var c := ChildKey(k, i);
      var t3 := t2[table := t2[table][i := EMPTY]] - {at2[c]};
      Inv(pool, free, t3, own2[at2[c] := Held], at2 - {c}) && SameFlat(t2, at2, t3, at2 - {c})
  {
    hide PagesInv, EntriesInv, Leafless, SameFlat, Flat;
    var c := ChildKey(k, i);
    NoChildrenLeft(own1, own2, at2, c);
    LeaflessSame(t1, at1, t2, at2, c, ENTRIES);
    RemoveTable(pool, free, t2, own2, at2, k, i);
  }

  lemma EmptiedRoot(pool: (nat, nat), free: seq<nat>, own0: map<nat, Owner>, t: Tables, at: map<Key, nat>,
                    own: map<nat, Owner>, root: nat)
    requires Inv(pool, free, t, own, at) && Key(root, Top) in at && OwnFreed(own0, own, Key(root, Top), ENTRIES)
    ensures Inv(pool, free, t - {root}, own[root := Held], at - {Key(root, Top)})
    ensures SameFlat(t, at, t - {root}, at - {Key(root, Top)})
  {
    hide PagesInv, EntriesInv, SameFlat, OwnFreed, Flat;
    NoChildrenLeft(own0, own, at, Key(root, Top));
    RemoveRoot(pool, free, t, own, at, root);
  }

  // Every page root owned is free again, and no other page has moved.
  ghost predicate OwnReturned(own: map<nat, Owner>, own': map<nat, Owner>, root: nat) {
    && own'.Keys == own.Keys
    && forall p :: p in own ==> own'[p] == if own[p].At? && own[p].key.root == root then Free else own[p]
  }

  lemma ReturnedAll(pool: (nat, nat), free: seq<nat>, t: Tables, own0: map<nat, Owner>, own1: map<nat, Owner>,
                    at0: map<Key, nat>, root: nat)
    requires Inv(pool, free, t, own0, at0) && IsRoot(own0, root) && OwnFreed(own0, own1, Key(root, Top), ENTRIES)
    ensures OwnReturned(own0, own1[root := Free], root)
  {
    hide PagesInv, EntriesInv;
    forall p | p in own0
      ensures own1[root := Free][p] == if own0[p].At? && own0[p].key.root == root then Free else own0[p]
    {
      if own0[p].At? && own0[p].key.root == root {
        assert own0[p].key in at0 && InBounds(own0[p].key.path);
      }
    }
  }

  lemma ReturnedTwice(own0: map<nat, Owner>, own1: map<nat, Owner>, own2: map<nat, Owner>, root: nat, n: nat)
    requires OwnUnmapped(own0, own1, root, 0, n, Free) && OwnReturned(own1, own2, root)
    ensures OwnReturned(own0, own2, root)
  {
    hide AddressOf;
    forall p | p in own0
      ensures own2[p] == if own0[p].At? && own0[p].key.root == root then Free else own0[p]
    {
      assert p in own1;
    }
  }

  // root maps nothing from page n on.
  ghost predicate NoneMapped(tables: Tables, at: map<Key, nat>, root: nat, n: nat) {
    forall v: nat :: n <= v < NPAGES ==> Flat(tables, at, root, v) == None
  }

  lemma LeaflessRoot(t0: Tables, at0: map<Key, nat>, t1: Tables, at1: map<Key, nat>, root: nat, n: nat)
    requires FlatUnmapped(t0, at0, t1, at1, root, 0, n)
    ensures Leafless(t1, at1, Key(root, Top), ENTRIES) <==> NoneMapped(t0, at0, root, n)
  {
    hide Flat, Px;
    assert forall v: nat :: Under(PathOf(v * PGSIZE), Top) && Branch(PathOf(v * PGSIZE), Top) < ENTRIES;
    if NoneMapped(t0, at0, root, n) {
      forall v: nat | v < NPAGES ensures Flat(t1, at1, root, v) == None {
      }
    }
    if Leafless(t1, at1, Key(root, Top), ENTRIES) {
      forall v: nat | n <= v < NPAGES ensures Flat(t0, at0, root, v) == None {
        assert Under(PathOf(v * PGSIZE), Top);
        assert Flat(t1, at1, root, v) == None;
      }
    }
  }

  datatype PageResult = GotPage | NoPage | PagePanic

  datatype CopyResult = CopyPanic | CopyFail | CopyOk

  datatype MapResult = MapPanic | MapFail | MapOk

  class Kernel {
    const pool: (nat, nat)        // pages [end, PHYSTOP)
    var free: seq<nat>            // kmem.freelist
    var tables: Tables            // contents of the page-table pages
    ghost var own: map<nat, Owner>
    ghost var at: map<Key, nat>

    ghost predicate Valid()
      reads this
    {
      Inv(pool, free, tables, own, at)
    }

    // kinit: freerange hands every page to kfree.
    constructor (start: nat, stop: nat)
      requires start <= stop
      ensures Valid() && pool == (start, stop) && tables == map[] && at == map[]
      ensures forall p :: p in own ==> own[p] == Free
      ensures |free| == stop - start
    {
      pool := (start, stop);
      tables, at := map[], map[];
      var list := [];
      for p := start to stop
        invariant |list| == p - start
        invariant forall i :: 0 <= i < |list| ==> list[i] == p - 1 - i
      {
        list := [p] + list;
      }
      forall p: nat | start <= p < stop ensures p in list {
        assert list[stop - 1 - p] == p;
      }
      free := list;
      own := map p | p in list :: Free;
    }

    // Pop the free list.
    method Kalloc() returns (r: Option<nat>)
      requires Valid()
      modifies `free, `own
      ensures Valid()
      ensures r.None? ==> free == [] && own == old(own) && free == old(free)
      ensures r.Some? ==>
        && r.value in old(own) && old(own)[r.value] == Free && own == old(own)[r.value := Held]
        && old(free) == [r.value] + free
    {
      if free == [] {
        return None;
      }
      var p := free[0];
      PagesPop(pool, free, tables, own);
      RetagLoose(tables, own, at, p, Held);
      free, own := free[1..], own[p := Held];
      return Some(p);
    }

    // Push a page.  The result false is the panic on an address outside the pool.
    method Kfree(p: nat) returns (ok: bool)
      requires Valid() && (p in own ==> own[p] == Held)
      modifies `free, `own
      ensures Valid() && (ok <==> pool.0 <= p < pool.1) && (p in old(own) ==> ok)
      ensures ok ==> p in old(own) && own == old(own)[p := Free] && free == [p] + old(free)
      ensures !ok ==> own == old(own) && free == old(free)
    {
      if p < pool.0 || p >= pool.1 {
        return false;
      }
      PagesPush(pool, free, tables, own, p);
      RetagLoose(tables, own, at, p, Free);
      free, own := [p] + free, own[p := Free];
      return true;
    }

    // A page the kernel keeps, such as a trap frame, may from now on be mapped by tables that
    // do not own it.
    ghost method Lend(p: nat)
      requires Valid() && p in own && own[p] == Held
      modifies `own
      ensures Valid() && own == old(own)[p := Lent]
    {
      LendKeeps(pool, free, tables, own, at, p);
      own := own[p := Lent];
    }

    // walk's allocation of a lower-level table: kalloc, memset and the new entry.
    method AddLevel(ghost k: Key, table: nat, i: nat) returns (r: Option<nat>)
      requires Valid() && k in at && at[k] == table && (k.path.Top? || k.path.Mid?)
      requires InBounds(Child(k.path, i)) && ChildKey(k, i) !in at
      modifies this
      ensures Valid() && SameFlat(old(tables), old(at), tables, at) && Grown(old(own), own, k.root)
      ensures r.None? ==> free == [] && tables == old(tables) && own == old(own) && at == old(at)
      ensures r.Some? ==> at == old(at)[ChildKey(k, i) := r.value]
      ensures |old(free)| <= |free| + 1
    {
      hide Inv, Flat;
      r := Kalloc();
      if r.None? {
        return;
      }
      var p := r.value;
      AddTable(pool, free, tables, own, at, k, i, p);
      hide SameFlat;
      tables := tables[p := seq(ENTRIES, _ => EMPTY)];
      tables := tables[table := tables[table][i := Pte(p, SUBTABLE)]];
      own, at := own[p := At(ChildKey(k, i))], at[ChildKey(k, i) := p];
      assert own == old(own)[p := At(ChildKey(k, i))];
    }

    // The table entry for va, as walk returns it.
    ghost predicate IsSlot(root: nat, va: nat, r: WalkResult)
      reads this
    {
      && r.Slot? && Key(root, Prefix(va, 0)) in at && at[Key(root, Prefix(va, 0))] == r.table
      && r.index == Px(0, va) && r.table in tables && |tables[r.table]| == ENTRIES
    }

    lemma WalkStart(root: nat, va: nat)
      requires Valid() && IsRoot(own, root)
      ensures Key(root, Prefix(va, 2)) in at && at[Key(root, Prefix(va, 2))] == root
      ensures SameFlat(tables, at, tables, at) && Grown(own, own, root)
    {
    }

    lemma SlotAt(root: nat, va: nat)
      requires Valid() && Key(root, Prefix(va, 0)) in at
      ensures IsSlot(root, va, Slot(at[Key(root, Prefix(va, 0))], Px(0, va)))
    {
      TableAt(pool, free, tables, own, at, Key(root, Prefix(va, 0)));
    }

    // One level of walk: from the table at a level to the one below it.
    method WalkLevel(root: nat, va: nat, level: nat, table: nat, alloc: bool) returns (r: Option<nat>)
      requires Valid() && va < MAXVA && 0 < level < 3
      requires Key(root, Prefix(va, level)) in at && at[Key(root, Prefix(va, level))] == table
      modifies this
      ensures Valid() && SameFlat(old(tables), old(at), tables, at) && Grown(old(own), own, root)
      ensures !alloc ==> free == old(free) && tables == old(tables) && own == old(own) && at == old(at)
      ensures r.None? ==> Flat(tables, at, root, va / PGSIZE) == None && (alloc ==> free == [])
      ensures r.Some? ==> Key(root, Prefix(va, level - 1)) in at && at[Key(root, Prefix(va, level - 1))] == r.value
      ensures |old(free)| <= |free| + 1
    {
      hide Inv, Flat;
      ghost var k := Key(root, Prefix(va, level));
      var i := Px(level, va);
      PathRoundTrip(va);
      InteriorEntry(pool, free, tables, own, at, k, i);
      var e := tables[table][i];
      if IsValid(e) {
        return Some(e.ppn);
      }
      MissingTable(pool, free, tables, own, at, root, va, level);
      if !alloc {
        return None;
      }
      r := AddLevel(k, table, i);
    }

    // Find the entry for va, adding interior tables if alloc is set.  Whatever happens,
    // no translation changes.
    method Walk(root: nat, va: nat, alloc: bool) returns (r: WalkResult)
      requires Valid() && IsRoot(own, root)
      modifies this
      ensures Valid() && SameFlat(old(tables), old(at), tables, at) && Grown(old(own), own, root)
      ensures !alloc ==> free == old(free) && tables == old(tables) && own == old(own) && at == old(at)
      ensures r.WalkPanic? <==> va >= MAXVA
      ensures r.Null? ==> Flat(tables, at, root, va / PGSIZE) == None && (alloc ==> free == [])
      ensures r.Slot? ==> IsSlot(root, va, r)
      ensures |old(free)| <= |free| + 2
    {
      hide *;
      WalkStart(root, va);
      if va >= MAXVA {
        return WalkPanic;
      }
      var table := root;
      var level := 2;
      while level > 0
        invariant 0 <= level <= 2
        invariant Valid() && Key(root, Prefix(va, level)) in at && at[Key(root, Prefix(va, level))] == table
        invariant SameFlat(old(tables), old(at), tables, at) && Grown(old(own), own, root)
        invariant !alloc ==> free == old(free) && tables == old(tables) && own == old(own) && at == old(at)
        invariant |old(free)| <= |free| + 2 - level
      {
        ghost var own1, tables1, at1 := own, tables, at;
        var q := WalkLevel(root, va, level, table, alloc);
        GrownTrans(old(own), own1, own, root);
        SameFlatTrans(old(tables), old(at), tables1, at1, tables, at);
        if q.None? {
          return Null;
        }
        table := q.value;
        level := level - 1;
      }
      SlotAt(root, va);
      return Slot(table, Px(0, va));
    }

    // One round of mappages: walk to page w of root and set its entry.
    method MapPage(root: nat, w: nat, ppn: nat, flags: Flags, ghost give: bool) returns (r: MapResult)
      requires Valid() && IsRoot(own, root) && IsLeaf(flags) && flags.v && Mappable(own, ppn, 1, give)
      modifies this
      ensures Valid() && IsRoot(own, root)
      ensures r.MapPanic? <==> w >= NPAGES || Flat(old(tables), old(at), root, w).Some?
      ensures r.MapFail? ==> free == [] && SameFlat(old(tables), old(at), tables, at) && Grown(old(own), own, root)
      ensures r.MapOk? ==>
        && FlatMapped(old(tables), old(at), tables, at, root, w, 1, ppn, flags)
        && OwnMapped(old(own), own, root, w, 1, ppn, give)
      ensures |old(free)| <= |free| + 2
    {
      hide PagesInv, PlacesInv, EntriesInv, PathOf, Px, Index, Prefix, IsSlot, SlotIndex, TableKey;
      ghost var own0, tables0, at0 := own, tables, at;
      var slot := Walk(root, w * PGSIZE, true);
      assert w * PGSIZE / PGSIZE == w;
      if slot.WalkPanic? {
        return MapPanic;
      }
      if slot.Null? {
        return MapFail;
      }
      FlatAt(root, w, slot);
      var e := tables[slot.table][slot.index];
      if IsValid(e) {
        return MapPanic;
      }
      ghost var own1, tables1, at1 := own, tables, at;
      OwnMappedGrown(own0, own0, own1, root, w, 0, ppn, give);
      SetLeaf(pool, free, tables, own, at, root, w, Pte(ppn, flags), give);
      tables := tables[slot.table := tables[slot.table][slot.index := Pte(ppn, flags)]];
      if give {
        own, at := own[ppn := At(PageKey(root, w))], at[PageKey(root, w) := ppn];
      }
      return MapOk;
    }

    lemma FlatAt(root: nat, w: nat, slot: WalkResult)
      requires Valid() && w < NPAGES && IsSlot(root, w * PGSIZE, slot)
      ensures TableKey(root, w) in at && at[TableKey(root, w)] == slot.table && SlotIndex(w) == slot.index
      ensures slot.table in tables && slot.index < |tables[slot.table]|
      ensures var e := tables[slot.table][slot.index];
        Flat(tables, at, root, w) == if IsValid(e) then Some(e) else None
    {
      PathOfPage(w * PGSIZE);
      TableAt(pool, free, tables, own, at, TableKey(root, w));
    }

    // Map the pages of [va, va + size) to consecutive physical pages.  On failure a prefix
    // of n pages is mapped, and nothing else differs.
    method Mappages(root: nat, va: nat, size: nat, pa: nat, perm: Flags, ghost give: bool)
      returns (r: MapResult, ghost n: nat)
      requires Valid() && IsRoot(own, root) && size > 0 && IsLeaf(perm)
      requires Mappable(own, pa / PGSIZE, Span(va, size), give)
      modifies this
      ensures Valid() && IsRoot(own, root)
      ensures n <= Span(va, size) && (r.MapOk? <==> n == Span(va, size))
      ensures r.MapFail? ==> free == []
      ensures !r.MapPanic? ==>
        && FlatMapped(old(tables), old(at), tables, at, root, va / PGSIZE, n, pa / PGSIZE, perm.(v := true))
        && OwnMapped(old(own), own, root, va / PGSIZE, n, pa / PGSIZE, give)
        && Unmapped(old(tables), old(at), root, va / PGSIZE, n)
      ensures r.MapPanic? ==>
        va / PGSIZE + n >= NPAGES || Flat(old(tables), old(at), root, va / PGSIZE + n).Some?
      ensures va / PGSIZE >= NPAGES ==> r.MapPanic?
      ensures |old(free)| <= |free| + 2 * n + if r.MapOk? then 0 else 2
    {
      hide Inv, Grown, Mappable, IsRoot;
      var a, last := PgRoundDown(va), PgRoundDown(va + size - 1);
      var ppn, flags := pa / PGSIZE, perm.(v := true);
      ghost var w, p0 := va / PGSIZE, pa / PGSIZE;
      ghost var own0, tables0, at0 := own, tables, at;
      n := 0;
      while true
        invariant Valid() && IsRoot(own, root)
        invariant n < Span(va, size) && a == (w + n) * PGSIZE && ppn == p0 + n
        invariant FlatMapped(tables0, at0, tables, at, root, w, n, p0, flags)
        invariant OwnMapped(own0, own, root, w, n, p0, give)
        invariant Unmapped(tables0, at0, root, w, n) && |old(free)| <= |free| + 2 * n
        decreases Span(va, size) - n
      {
        ghost var own1, tables1, at1 := own, tables, at;
        MappableNext(own0, own, root, w, n, Span(va, size), p0, give);
        if w + n < NPAGES {
        }
        assert a / PGSIZE == w + n;
        r := MapPage(root, a / PGSIZE, ppn, flags, give);
        if r.MapPanic? {
          return;
        }
        if r.MapFail? {
          OwnMappedGrown(own0, own1, own, root, w, n, p0, give);
          return;
        }
        FlatMappedConcat(tables0, at0, tables1, at1, tables, at, root, w, n, p0, flags);
        OwnMappedConcat(own0, own1, own, root, w, n, p0, give);
        n := n + 1;
        if a == last {
          break;
        }
        a := a + PGSIZE;
        ppn := ppn + 1;
      }
      return MapOk, n;
    }

    // One round of uvmunmap.  (Here the entry is cleared before the page is freed.)
    method UnmapPage(root: nat, w: nat, doFree: bool) returns (ok: bool)
      requires Valid() && IsRoot(own, root) && (doFree ==> OwnsMapped(tables, at, root, w, 1))
      modifies this
      ensures ok <==> w < NPAGES && Flat(old(tables), old(at), root, w).Some?
      ensures ok ==>
        && Valid() && IsRoot(own, root)
        && FlatUpdate(old(tables), old(at), tables, at, root, w, None)
        && var c := PageKey(root, w);
           && at == old(at) - {c}
           && own == if c in old(at) then old(own)[old(at)[c] := if doFree then Free else Held] else old(own)
    {
      hide PagesInv, PlacesInv, EntriesInv, Flat, PathOf, Px, Index, Prefix, IsSlot, FlatUpdate, PageKey, SlotIndex,
           TableKey;
      var slot := Walk(root, w * PGSIZE, false);
      assert w * PGSIZE / PGSIZE == w;
      if !slot.Slot? {
        return false;
      }
      FlatAt(root, w, slot);
      var e := tables[slot.table][slot.index];
      if !IsValid(e) {
        return false;
      }
      LeafAt(root, w);
      if e.flags == SUBTABLE {
        return false;
      }
      ghost var c := PageKey(root, w);
      ClearLeaf(pool, free, tables, own, at, root, w);
      tables := tables[slot.table := tables[slot.table][slot.index := EMPTY]];
      if c in at {
        own, at := own[at[c] := Held], at - {c};
      }
      if doFree {
        var freed := Kfree(e.ppn);
        if !freed {
          return false;
        }
      }
      return true;
    }

    // A mapped page entry is a leaf, and if root owns the page it points to it.
    lemma LeafAt(root: nat, w: nat)
      requires Valid() && w < NPAGES && Flat(tables, at, root, w).Some? && IsRoot(own, root)
      ensures var e, c := Flat(tables, at, root, w).value, PageKey(root, w);
        && IsLeaf(e.flags) && (c in at ==> at[c] == e.ppn && e.ppn in own && own[e.ppn] == At(c) && e.ppn != root)
    {
      var k, i := TableKey(root, w), SlotIndex(w);
      TableAt(pool, free, tables, own, at, k);
      assert EntryOk(own, at, k, i, tables[at[k]][i]);
      assert ChildKey(k, i) == PageKey(root, w);
    }

    // Remove npages mappings from va on, freeing the pages if doFree.  The result false is
    // one of the panics.
    method Uvmunmap(root: nat, va: nat, npages: nat, doFree: bool) returns (ok: bool)
      requires Valid() && IsRoot(own, root)
      requires doFree ==> OwnsMapped(tables, at, root, va / PGSIZE, npages)
      modifies this
      ensures ok <==> va % PGSIZE == 0 && AllMapped(old(tables), old(at), root, va / PGSIZE, npages)
      ensures ok ==>
        && Valid() && IsRoot(own, root)
        && FlatUnmapped(old(tables), old(at), tables, at, root, va / PGSIZE, npages)
        && OwnUnmapped(old(own), own, root, va / PGSIZE, npages, if doFree then Free else Held)
    {
      hide Inv, PageKey, IsRoot;
      if va % PGSIZE != 0 {
        return false;
      }
      ghost var w, n, o := va / PGSIZE, 0, if doFree then Free else Held;
      ghost var own0, tables0, at0 := own, tables, at;
      var a := va;
      while a < va + npages * PGSIZE
        invariant n <= npages && a == (w + n) * PGSIZE
        invariant Valid() && IsRoot(own, root)
        invariant FlatUnmapped(tables0, at0, tables, at, root, w, n)
        invariant OwnUnmapped(own0, own, root, w, n, o)
        invariant AllMapped(tables0, at0, root, w, n)
        invariant forall v: nat :: w + n <= v < NPAGES ==> (PageKey(root, v) in at <==> PageKey(root, v) in at0)
      {
        ghost var free1, own1, tables1, at1 := free, own, tables, at;
        if w + n < NPAGES {
        }
        assert a / PGSIZE == w + n;
        ok := UnmapPage(root, a / PGSIZE, doFree);
        if !ok {
          assert n < npages;
          AllMappedAt(tables0, at0, root, w, npages, w + n);
          return;
        }
        OwnUnmappedStep(pool, free1, tables1, own0, own1, at1, root, w, n, o);
        PageKeysDiffer(at1, root, w + n);
        n := n + 1;
        a := a + PGSIZE;
      }
      return true;
    }

    // The common part of uvmalloc and uvmcopy: take a page and map it, or give it back.
    method AllocPage(root: nat, w: nat, flags: Flags) returns (r: PageResult)
      requires Valid() && IsRoot(own, root) && IsLeaf(flags) && (w < NPAGES ==> Unmapped(tables, at, root, w, 1))
      modifies this
      ensures r.PagePanic? <==> w >= NPAGES && old(free) != []
      ensures r.GotPage? ==> w < NPAGES
      ensures !r.PagePanic? ==> Valid() && IsRoot(own, root)
      ensures r.GotPage? ==>
        && FlatAlloc(old(tables), old(at), tables, at, root, w, [flags.(v := true)])
        && OwnAlloc(old(own), own, root, w, 1)
      ensures r.NoPage? ==> SameFlat(old(tables), old(at), tables, at) && Grown(old(own), own, root)
      ensures !r.PagePanic? ==> forall k :: k in old(at) ==> k in at && at[k] == old(at)[k]
      ensures !r.PagePanic? ==> |old(free)| <= if r.GotPage? then |free| + 3 else 3
    {
      hide Inv, Flat, FlatMapped, SameFlat, OwnMapped, OwnAlloc, FlatAlloc, Unmapped, Grown;
      WalkStart(root, 0);
      if w < NPAGES {
        UnmappedAt(tables, at, root, w, 1, w);
      }
      ghost var free0, tables0, own0, at0 := free, tables, own, at;
      var mem := Kalloc();
      if mem.None? {
        return NoPage;
      }
      assert Span(w * PGSIZE, PGSIZE) == 1 && w * PGSIZE / PGSIZE == w && mem.value * PGSIZE / PGSIZE == mem.value;
      var m;
      ghost var n;
      m, n := Mappages(root, w * PGSIZE, PGSIZE, mem.value * PGSIZE, flags, true);
      if m.MapPanic? {
        return PagePanic;
      }
      if m.MapFail? {
        AllocPageFail(pool, free0, tables0, own0, at0, free, tables, own, at, root, w, flags.(v := true), mem.value);
        var freed := Kfree(mem.value);
        return NoPage;
      }
      AllocPageOk(pool, free0, tables0, own0, at0, free, tables, own, at, root, w, flags.(v := true), mem.value);
      return GotPage;
    }

    // Shrink from oldsz to newsz bytes.  The result false is a panic of uvmunmap.
    method Uvmdealloc(root: nat, oldsz: nat, newsz: nat) returns (ok: bool, r: nat)
      requires Valid() && IsRoot(own, root)
      requires newsz < oldsz ==> OwnsMapped(tables, at, root, Pages(newsz), Pages(oldsz) - Pages(newsz))
      modifies this
      ensures r == if newsz < oldsz then newsz else oldsz
      ensures Pages(r) <= Pages(oldsz)
      ensures ok <==> AllMapped(old(tables), old(at), root, Pages(r), Pages(oldsz) - Pages(r))
      ensures ok ==>
        && Valid() && IsRoot(own, root)
        && FlatUnmapped(old(tables), old(at), tables, at, root, Pages(r), Pages(oldsz) - Pages(r))
        && OwnUnmapped(old(own), own, root, Pages(r), Pages(oldsz) - Pages(r), Free)
    {
      hide Inv, Flat, OwnsMapped, PageKey, IsRoot, PgRoundUp;
      r := if newsz < oldsz then newsz else oldsz;
      PagesMonotone(r, oldsz);
      PagesFacts(oldsz);
      PagesFacts(newsz);
      if newsz >= oldsz {
        return true, oldsz;
      }
      if PgRoundUp(newsz) < PgRoundUp(oldsz) {
        var npages := (PgRoundUp(oldsz) - PgRoundUp(newsz)) / PGSIZE;
        ok := Uvmunmap(root, PgRoundUp(newsz), npages, true);
        return ok, newsz;
      }
      return true, newsz;
    }

    // Undo the pages allocated so far.
    method Release(root: nat, w: nat, ghost fl: seq<Flags>, n: nat, ghost t0: Tables, ghost at0: map<Key, nat>,
                   ghost own0: map<nat, Owner>, ghost t1: Tables, ghost at1: map<Key, nat>, ghost own1: map<nat, Owner>)
      requires Valid() && IsRoot(own, root) && n == |fl|
      requires FlatAlloc(t0, at0, t1, at1, root, w, fl) && SameFlat(t1, at1, tables, at)
      requires forall k :: k in at1 ==> k in at && at[k] == at1[k]
      requires OwnAlloc(own0, own1, root, w, n) && Grown(own1, own, root)
      requires Unmapped(t0, at0, root, w, n) && NoPageIn(own0, root, w, n) && (n > 0 ==> w + n <= NPAGES)
      modifies this
      ensures Valid() && IsRoot(own, root) && SameFlat(t0, at0, tables, at) && Grown(own0, own, root)
    {
      hide *;
      ghost var t2, at2, own2 := tables, at, own;
      AllocMapped(t0, at0, t1, at1, tables, at, root, w, fl);
      WholePages(w);
      var ok := Uvmunmap(root, w * PGSIZE, n, true);
      AllocUndone(t0, at0, t1, at1, t2, at2, tables, at, own0, own1, own2, own, root, w, fl);
    }

    // The same by uvmdealloc, from a bytes back to lo.
    method Shrink(root: nat, a: nat, lo: nat, ghost w: nat, ghost fl: seq<Flags>, ghost t0: Tables,
                  ghost at0: map<Key, nat>, ghost own0: map<nat, Owner>, ghost t1: Tables, ghost at1: map<Key, nat>,
                  ghost own1: map<nat, Owner>)
      requires Valid() && IsRoot(own, root) && lo == w * PGSIZE && a == (w + |fl|) * PGSIZE
      requires FlatAlloc(t0, at0, t1, at1, root, w, fl) && SameFlat(t1, at1, tables, at)
      requires forall k :: k in at1 ==> k in at && at[k] == at1[k]
      requires OwnAlloc(own0, own1, root, w, |fl|) && Grown(own1, own, root)
      requires Unmapped(t0, at0, root, w, |fl|) && NoPageIn(own0, root, w, |fl|) && (|fl| > 0 ==> w + |fl| <= NPAGES)
      modifies this
      ensures Valid() && IsRoot(own, root) && SameFlat(t0, at0, tables, at) && Grown(own0, own, root)
    {
      hide *;
      ghost var t2, at2, own2 := tables, at, own;
      AllocMapped(t0, at0, t1, at1, tables, at, root, w, fl);
      PagesOf(w);
      PagesOf(w + |fl|);
      var ok, r := Uvmdealloc(root, a, lo);
      AllocUndone(t0, at0, t1, at1, t2, at2, tables, at, own0, own1, own2, own, root, w, fl);
    }

    // Grow from oldsz to newsz bytes.  The result is the new size, or 0 after failing; the
    // second one is true for the panic of walk, beyond MAXVA.
    method Uvmalloc(root: nat, oldsz: nat, newsz: nat) returns (r: nat, panicked: bool, ghost ok: bool)
      requires Valid() && IsRoot(own, root)
      requires oldsz <= newsz ==> Unmapped(tables, at, root, Pages(oldsz), Reach(oldsz, newsz))
      modifies this
      ensures newsz < oldsz ==>
        !panicked && r == oldsz && Valid() && tables == old(tables) && own == old(own) && at == old(at)
      ensures panicked ==> Pages(newsz) > NPAGES
      ensures !panicked ==> Valid() && IsRoot(own, root)
      ensures newsz >= oldsz && !panicked ==>
        && r == (if ok then newsz else 0) && Pages(oldsz) <= Pages(newsz)
        && var n := Pages(newsz) - Pages(oldsz);
           && (ok ==>
                 && n == Reach(oldsz, newsz)
                 && FlatAlloc(old(tables), old(at), tables, at, root, Pages(oldsz),
                              Repeated(Flags(true, true, true, true, true, 0), n))
                 && OwnAlloc(old(own), own, root, Pages(oldsz), n))
           && (!ok ==>
                 && SameFlat(old(tables), old(at), tables, at) && Grown(old(own), own, root)
                 && |old(free)| <= 3 * n)
    {
      hide Inv, Flat, FlatAlloc, OwnAlloc, SameFlat, Grown, Unmapped, NoPageIn, IsRoot, PgRoundUp;
      if newsz < oldsz {
        return oldsz, false, true;
      }
      PagesMonotone(oldsz, newsz);
      PagesFacts(oldsz);
      PagesFacts(newsz);
      ghost var free0, tables0, at0, own0 := free, tables, at, own;
      ghost var fl := Repeated(USER_PAGE.(v := true), 0);
      ghost var w, total, reach := Pages(oldsz), Pages(newsz) - Pages(oldsz), Reach(oldsz, newsz);
      AllocNone(tables, at, own, root, w);
      var a := PgRoundUp(oldsz);
      var n := 0;
      while a < newsz
        invariant n <= reach && a == (w + n) * PGSIZE && fl == Repeated(USER_PAGE.(v := true), n)
        invariant Valid() && IsRoot(own, root)
        invariant FlatAlloc(tables0, at0, tables, at, root, w, fl)
        invariant OwnAlloc(own0, own, root, w, n)
        invariant |free0| <= |free| + 3 * n
        decreases total - n
      {
        ghost var t1, at1, own1 := tables, at, own;
        if n < reach {
          AllocBeyond(tables0, at0, tables, at, root, w, fl, reach);
        }
        assert a / PGSIZE == w + n;
        var got := AllocPage(root, a / PGSIZE, USER_PAGE);
        if got.PagePanic? {
          return 0, true, false;
        }
        if got.NoPage? {
          UnmappedBound(tables0, at0, root, w, reach, n);
          UnmappedOwnsNone(pool, free0, tables0, own0, at0, root, w, n);
          Shrink(root, a, PgRoundUp(oldsz), w, fl, tables0, at0, own0, t1, at1, own1);
          return 0, false, false;
        }
        AllocConcat(tables0, at0, t1, at1, tables, at, own0, own1, own, root, w, fl, USER_PAGE.(v := true));
        fl := fl + [USER_PAGE.(v := true)];
        a := a + PGSIZE;
        n := n + 1;
      }
      return newsz, false, true;
    }

    // Copy the first sz bytes of a parent's table into a child's: the same pages with the
    // same flags, on fresh memory.
    method Uvmcopy(parent: nat, child: nat, sz: nat) returns (r: CopyResult)
      requires Valid() && IsRoot(own, parent) && IsRoot(own, child) && parent != child
      requires Unmapped(tables, at, child, 0, Reach(0, sz))
      modifies this
      ensures r.CopyPanic? ==> !AllMapped(old(tables), old(at), parent, 0, Pages(sz))
      ensures r.CopyOk? ==> AllMapped(old(tables), old(at), parent, 0, Pages(sz))
      ensures !r.CopyPanic? ==> Valid() && IsRoot(own, parent) && IsRoot(own, child)
      ensures r.CopyOk? ==>
        && FlatAlloc(old(tables), old(at), tables, at, child, 0, FlagsOf(old(tables), old(at), parent, Pages(sz)))
        && OwnAlloc(old(own), own, child, 0, Pages(sz))
      ensures r.CopyFail? ==>
        && SameFlat(old(tables), old(at), tables, at) && Grown(old(own), own, child)
        && |old(free)| <= 3 * Pages(sz)
    {
      hide Inv, Flat, FlatAlloc, SameFlat, Grown, Unmapped, NoPageIn, PgRoundUp, FlagsOf, AllMapped;
      PagesFacts(sz);
      PagesFacts(0);
      ghost var free0, tables0, at0, own0 := free, tables, at, own;
      ghost var fl := FlagsOf(tables, at, parent, 0);
      AllocNone(tables, at, own, child, 0);
      AllMappedNone(tables, at, parent);
      var i, n := 0, 0;
      while i < sz
        invariant n <= Pages(sz) && i == n * PGSIZE && fl == FlagsOf(tables0, at0, parent, n)
        invariant Valid() && IsRoot(own, parent) && IsRoot(own, child)
        invariant FlatAlloc(tables0, at0, tables, at, child, 0, fl)
        invariant OwnAlloc(own0, own, child, 0, n)
        invariant AllMapped(tables0, at0, parent, 0, n)
        invariant |free0| <= |free| + 3 * n
        decreases Pages(sz) - n
      {
        ghost var t1, at1, own1 := tables, at, own;
        AllMappedAt(tables0, at0, parent, 0, Pages(sz), n);
        if n < NPAGES {
          UnmappedBound(tables0, at0, child, 0, Reach(0, sz), n + 1);
          UnmappedBound(tables0, at0, child, 0, Reach(0, sz), n);
          AllocElsewhere(tables0, at0, tables, at, child, 0, fl, parent, n);
        }
        assert i / PGSIZE == n;
        var slot := Walk(parent, i, false);
        if !slot.Slot? {
          return CopyPanic;
        }
        FlatAt(parent, n, slot);
        var e := tables[slot.table][slot.index];
        if !IsValid(e) {
          return CopyPanic;
        }
        LeafAt(parent, n);
        AllocBeyond(tables0, at0, tables, at, child, 0, fl, Reach(0, sz));
        var got := AllocPage(child, n, e.flags);
        if got.NoPage? {
          UnmappedOwnsNone(pool, free0, tables0, own0, at0, child, 0, n);
          Release(child, 0, fl, n, tables0, at0, own0, t1, at1, own1);
          GrownKeepsRoot(own0, own, child, parent);
          return CopyFail;
        }
        AllocConcat(tables0, at0, t1, at1, tables, at, own0, own1, own, child, 0, fl, e.flags);
        CopyStep(tables0, at0, parent, n);
        fl := fl + [e.flags];
        i := i + PGSIZE;
        n := n + 1;
      }
      return CopyOk;
    }

    // An empty user page table.
    method Uvmcreate() returns (r: Option<nat>)
      requires Valid()
      modifies this
      ensures Valid() && SameFlat(old(tables), old(at), tables, at)
      ensures r.None? <==> old(free) == []
      ensures r.None? ==> own == old(own) && at == old(at) && tables == old(tables)
      ensures r.Some? ==>
        && IsRoot(own, r.value) && Unmapped(tables, at, r.value, 0, NPAGES)
        && r.value in old(own) && old(own)[r.value] == Free && own == old(own)[r.value := At(Key(r.value, Top))]
    {
      hide Inv, Flat;
      r := Kalloc();
      if r.None? {
        return;
      }
      var p := r.value;
      AddRoot(pool, free, tables, own, at, p);
      ghost var k := Key(p, Top);
      tables := tables[p := seq(ENTRIES, _ => EMPTY)];
      own, at := own[p := At(k)], at[k := p];
      assert own == old(own)[p := At(k)];
    }

    // The loop of freewalk: free every table below the one at k.  The result false is the
    // panic on a leaf.  (Here a parent's entry is cleared before the table is freed.)
    method FreeBelow(ghost k: Key, table: nat) returns (ok: bool)
      requires Valid() && k in at && at[k] == table && !k.path.Page?
      modifies this
      ensures ok <==> Leafless(old(tables), old(at), k, ENTRIES)
      ensures ok ==>
        && Valid() && k in at && at[k] == table
        && SameFlat(old(tables), old(at), tables, at) && OwnFreed(old(own), own, k, ENTRIES)
      decreases match k.path case Top => 2 case Mid(_) => 1 case _ => 0
    {
      hide Inv, PlacesInv, Flat, SameFlat, OwnFreed, Leafless, Below, NoChildren, IsLeaf;
      ghost var own0, tables0, at0 := own, tables, at;
      FreedNone(own, k);
      LeaflessNone(tables, at, k);
      SameFlatSelf(tables, at);
      var i := 0;
      while i < ENTRIES
        invariant 0 <= i <= ENTRIES
        invariant Valid() && k in at && at[k] == table
        invariant SameFlat(tables0, at0, tables, at) && OwnFreed(own0, own, k, i)
        invariant Leafless(tables0, at0, k, i)
      {
        ghost var own1, tables1, at1 := own, tables, at;
        TableAt(pool, free, tables, own, at, k);
        var e := tables[table][i];
        if IsValid(e) && !IsLeaf(e.flags) {
          ghost var c := ChildKey(k, i);
          SubtableEntry(pool, free, tables, own, at, k, i);
          PlacesOf(pool, free, tables, own, at);
          LeaflessStep(tables0, at0, k, i);
          LeaflessSame(tables0, at0, tables, at, c, ENTRIES);
          var sub := FreeBelow(c, e.ppn);
          if !sub {
            LeaflessAll(tables0, at0, k, i + 1);
            return false;
          }
          EmptiedTable(pool, free, tables1, at1, own1, tables, at, own, k, i, table);
          FreedChild(own0, own1, own, at1, k, i);
          SameFlatTrans(tables0, at0, tables1, at1, tables, at);
          ghost var own2, tables2, at2 := own, tables, at;
          tables := tables[table := tables[table][i := EMPTY]];
          tables := tables - {e.ppn};
          own, at := own[e.ppn := Held], at - {c};
          SameFlatTrans(tables0, at0, tables2, at2, tables, at);
          var freed := Kfree(e.ppn);
          assert own == own2[e.ppn := Free];
        } else if IsValid(e) {
          MappedEntry(pool, free, tables, own, at, k, i);
          LeaflessSame(tables0, at0, tables, at, k, ENTRIES);
          return false;
        } else {
          InvalidEntry(pool, free, tables0, at0, own0, tables, at, own, k, i);
        }
        i := i + 1;
      }
      return true;
    }

    // Free the tables of an address space.  All its leaf mappings must be gone; the result
    // false is the panic otherwise.
    method Freewalk(root: nat) returns (ok: bool)
      requires Valid() && IsRoot(own, root)
      modifies this
      ensures ok <==> Leafless(old(tables), old(at), Key(root, Top), ENTRIES)
      ensures ok ==> Valid() && SameFlat(old(tables), old(at), tables, at) && OwnReturned(old(own), own, root)
    {
      hide Inv, Flat, SameFlat, OwnFreed, Leafless, NoChildren, OwnReturned;
      RootAt(pool, free, tables, own, at, root);
      ghost var free0, own0, tables0, at0 := free, own, tables, at;
      ok := FreeBelow(Key(root, Top), root);
      if !ok {
        return;
      }
      ghost var own1, tables1, at1 := own, tables, at;
      EmptiedRoot(pool, free, own0, tables, at, own, root);
      tables := tables - {root};
      own, at := own[root := Held], at - {Key(root, Top)};
      SameFlatTrans(tables0, at0, tables1, at1, tables, at);
      var freed := Kfree(root);
      assert own == own1[root := Free];
      ReturnedAll(pool, free0, tables0, own0, own1, at0, root);
    }

    // Free the first sz bytes of an address space and then its tables: every page the
    // address space owned, and no other, returns to the free list.
    method Uvmfree(root: nat, sz: nat) returns (ok: bool)
      requires Valid() && IsRoot(own, root) && OwnsMapped(tables, at, root, 0, Pages(sz))
      modifies this
      ensures ok <==>
        && AllMapped(old(tables), old(at), root, 0, Pages(sz))
        && NoneMapped(old(tables), old(at), root, Pages(sz))
      ensures ok ==>
        && Valid() && OwnReturned(old(own), own, root)
        && FlatUnmapped(old(tables), old(at), tables, at, root, 0, NPAGES)
    {
      hide Inv, Flat, Leafless, OwnReturned, IsRoot, PgRoundUp, OwnsMapped, AllMapped;
      PagesFacts(sz);
      ghost var own0, tables0, at0 := own, tables, at;
      AllMappedNone(tables, at, root);
      if sz > 0 {
        ok := Uvmunmap(root, 0, PgRoundUp(sz) / PGSIZE, true);
        if !ok {
          return;
        }
      }
      ghost var own1, tables1, at1 := own, tables, at;
      LeaflessRoot(tables0, at0, tables, at, root, Pages(sz));
      ok := Freewalk(root);
      if ok {
        ReturnedTwice(own0, own1, own, root, Pages(sz));
      }
    }
  }
}
