// Taking page tables apart (freewalk in kernel/vm.c): which places lie below a table, and
// what removing an empty table does to the ownership of pages and to the flat map.
module TableRemoval {
  import opened Wrappers
  import opened PageTables

  // q is a place strictly below p.
  predicate Under(q: Path, p: Path) {
    match p
    case Top => !q.Top?
    case Mid(a) => (q.Low? || q.Page?) && q.i2 == a
    case Low(a, b) => q.Page? && q.i2 == a && q.i1 == b
    case Page(_, _, _) => false
  }

  // The entry of the table at p through which q is reached.
  function Branch(q: Path, p: Path): nat
    requires Under(q, p)
  {
    match p
    case Top => q.i2
    case Mid(_) => q.i1
    case Low(_, _) => q.i0
  }

  // o is a place below k reached through one of its first n entries.
  predicate Below(o: Owner, k: Key, n: nat) {
    o.At? && o.key.root == k.root && Under(o.key.path, k.path) && Branch(o.key.path, k.path) < n
  }

  // The pages at places below the first n entries of k are free; no other page has moved.
  ghost predicate OwnFreed(own: map<nat, Owner>, own': map<nat, Owner>, k: Key, n: nat) {
    && own'.Keys == own.Keys
    && forall p :: p in own ==> own'[p] == if Below(own[p], k, n) then Free else own[p]
  }

  // No page is mapped through the first n entries of k.
  ghost predicate Leafless(tables: Tables, at: map<Key, nat>, k: Key, n: nat) {
    forall v: nat :: v < NPAGES && Under(PathOf(v * PGSIZE), k.path) && Branch(PathOf(v * PGSIZE), k.path) < n ==>
      Flat(tables, at, k.root, v) == None
  }

  lemma AncestorIn(own: map<nat, Owner>, at: map<Key, nat>, q: Key, k: Key)
    requires PlacesInv(own, at) && q in at && q.root == k.root && Under(q.path, k.path)
    ensures ChildKey(k, Branch(q.path, k.path)) in at && Branch(q.path, k.path) < ENTRIES
  {
    assert InBounds(q.path);
    assert Key(q.root, Parent(q.path)) in at;
    if !Parent(q.path).Top? {
      assert Key(q.root, Parent(Parent(q.path))) in at;
    }
  }

  lemma LeaflessSame(t0: Tables, at0: map<Key, nat>, t1: Tables, at1: map<Key, nat>, k: Key, n: nat)
    requires SameFlat(t0, at0, t1, at1)
    ensures Leafless(t0, at0, k, n) <==> Leafless(t1, at1, k, n)
  {
    hide Flat, PathOf;
  }

  lemma LeaflessStep(tables: Tables, at: map<Key, nat>, k: Key, i: nat)
    requires k.path.Top? || k.path.Mid?
    ensures Leafless(tables, at, k, i + 1)
      <==> Leafless(tables, at, k, i) && Leafless(tables, at, ChildKey(k, i), ENTRIES)
  {
    hide Flat, Px;
    forall v: nat
      ensures Under(PathOf(v * PGSIZE), ChildKey(k, i).path)
         <==> Under(PathOf(v * PGSIZE), k.path) && Branch(PathOf(v * PGSIZE), k.path) == i
    {
    }
  }

  // Nothing is mapped through an invalid entry.
  lemma LeaflessSkip(tables: Tables, own: map<nat, Owner>, at: map<Key, nat>, k: Key, i: nat)
    requires PlacesInv(own, at) && EntriesInv(tables, own, at) && k in at && !k.path.Page? && i < ENTRIES
    requires !IsValid(tables[at[k]][i]) && Leafless(tables, at, k, i)
    ensures Leafless(tables, at, k, i + 1)
  {
    hide Px;
    assert EntryOk(own, at, k, i, tables[at[k]][i]);
    forall v: nat | v < NPAGES && Under(PathOf(v * PGSIZE), k.path) && Branch(PathOf(v * PGSIZE), k.path) == i
      ensures Flat(tables, at, k.root, v) == None
    {
      var q := Key(k.root, Parent(PathOf(v * PGSIZE)));
      if q in at && q != k {
        AncestorIn(own, at, q, k);
        assert false;
      }
    }
  }

  lemma AddressWhole(q: Path)
    requires q.Page? && AddressOf(q) < MAXVA
    ensures AddressOf(q) / PGSIZE * PGSIZE == AddressOf(q) && AddressOf(q) / PGSIZE < NPAGES
  {
    var w := q.i2 * 0x4_0000 + q.i1 * 0x200 + q.i0;
    assert AddressOf(q) == w * PGSIZE;
    assert w * PGSIZE / PGSIZE == w;
  }

  // A valid entry with permission bits maps a page.
  lemma LeafFound(tables: Tables, own: map<nat, Owner>, at: map<Key, nat>, k: Key, i: nat)
    requires PlacesInv(own, at) && EntriesInv(tables, own, at) && k in at && !k.path.Page? && i < ENTRIES
    requires IsValid(tables[at[k]][i]) && IsLeaf(tables[at[k]][i].flags)
    ensures !Leafless(tables, at, k, ENTRIES)
  {
    hide PathOf, AddressOf;
    assert EntryOk(own, at, k, i, tables[at[k]][i]);
    var q := Page(k.path.i2, k.path.i1, i);
    var v := AddressOf(q) / PGSIZE;
    AddressRoundTrip(q);
    AddressWhole(q);
    assert Flat(tables, at, k.root, v).Some?;
  }

  lemma NoChildrenLeft(own0: map<nat, Owner>, own: map<nat, Owner>, at: map<Key, nat>, k: Key)
    requires PlacesInv(own, at) && OwnFreed(own0, own, k, ENTRIES) && !k.path.Page?
    ensures NoChildren(at, k)
  {
    forall q | q in at && !q.path.Top? ensures Key(q.root, Parent(q.path)) != k {
      assert at[q] in own && own[at[q]] == At(q) && InBounds(q.path);
      assert at[q] in own0 && !Below(At(q), k, ENTRIES);
    }
  }

  lemma FreedNone(own: map<nat, Owner>, k: Key)
    ensures OwnFreed(own, own, k, 0)
  {
  }

  lemma FreedSkip(own0: map<nat, Owner>, own: map<nat, Owner>, at: map<Key, nat>, k: Key, i: nat)
    requires PlacesInv(own, at) && OwnFreed(own0, own, k, i) && !k.path.Page? && ChildKey(k, i) !in at
    ensures OwnFreed(own0, own, k, i + 1)
  {
    forall p | p in own0 ensures own[p] == if Below(own0[p], k, i + 1) then Free else own0[p] {
      assert p in own;
      if Below(own0[p], k, i + 1) && !Below(own0[p], k, i) {
        AncestorIn(own, at, own[p].key, k);
        assert false;
      }
    }
  }

  lemma FreedChild(own0: map<nat, Owner>, own1: map<nat, Owner>, own2: map<nat, Owner>, at1: map<Key, nat>, k: Key,
                   i: nat)
    requires PlacesInv(own1, at1) && OwnFreed(own0, own1, k, i) && (k.path.Top? || k.path.Mid?)
    requires ChildKey(k, i) in at1 && OwnFreed(own1, own2, ChildKey(k, i), ENTRIES)
    ensures OwnFreed(own0, own2[at1[ChildKey(k, i)] := Free], k, i + 1)
  {
    var c := ChildKey(k, i);
    var own3 := own2[at1[c] := Free];
    assert at1[c] in own1 && own1[at1[c]] == At(c);
    forall p | p in own0 ensures own3[p] == if Below(own0[p], k, i + 1) then Free else own0[p] {
      assert p in own1 && p in own2;
      if own1[p].At? {
        assert own1[p].key in at1 && at1[own1[p].key] == p && InBounds(own1[p].key.path);
      }
    }
  }

  // Removing the empty table below entry i of the table at k.
  lemma RemoveTable(pool: (nat, nat), free: seq<nat>, tables: Tables, own: map<nat, Owner>, at: map<Key, nat>, k: Key,
                    i: nat)
    requires Inv(pool, free, tables, own, at) && k in at && (k.path.Top? || k.path.Mid?) && i < ENTRIES
    requires ChildKey(k, i) in at && NoChildren(at, ChildKey(k, i)) && Leafless(tables, at, ChildKey(k, i), ENTRIES)
    ensures at[k] in tables && |tables[at[k]]| == ENTRIES && at[k] != at[ChildKey(k, i)]
    ensures var c := ChildKey(k, i);
      var tables' := SetEntry(tables, at, k, i, EMPTY) - {at[c]};
      Inv(pool, free, tables', own[at[c] := Held], at - {c}) && SameFlat(tables, at, tables', at - {c})
  {
    hide PagesInv, Flat, Leafless, EntryOk, PathOf;
    var c := ChildKey(k, i);
    RemovePlace(own, at, c);
    RemoveEntries(tables, own, at, k, i);
    RemovePages(pool, free, tables, own, at, k, i);
    RemoveFlat(tables, own, at, k, i);
  }

  lemma RemovePages(pool: (nat, nat), free: seq<nat>, tables: Tables, own: map<nat, Owner>, at: map<Key, nat>, k: Key,
                    i: nat)
    requires PagesInv(pool, free, tables, own) && PlacesInv(own, at)
    requires k in at && !k.path.Page? && at[k] in tables && i < |tables[at[k]]| && ChildKey(k, i) in at
    ensures PagesInv(pool, free, SetEntry(tables, at, k, i, EMPTY) - {at[ChildKey(k, i)]},
                     own[at[ChildKey(k, i)] := Held])
  {
    hide PagesInv;
    var p := at[ChildKey(k, i)];
    PagesRetag(pool, free, tables, own, p, Held, SetEntry(tables, at, k, i, EMPTY) - {p});
  }

  lemma RemoveEntries(tables: Tables, own: map<nat, Owner>, at: map<Key, nat>, k: Key, i: nat)
    requires PlacesInv(own, at) && EntriesInv(tables, own, at) && k in at && (k.path.Top? || k.path.Mid?) && i < ENTRIES
    requires ChildKey(k, i) in at && at[k] in tables && |tables[at[k]]| == ENTRIES
    ensures var c := ChildKey(k, i);
      EntriesInv(SetEntry(tables, at, k, i, EMPTY) - {at[c]}, own[at[c] := Held], at - {c})
  {
    var c := ChildKey(k, i);
    var own', at' := own[at[c] := Held], at - {c};
    var tables' := SetEntry(tables, at, k, i, EMPTY) - {at[c]};
    forall k' | k' in at' && !k'.path.Page?
      ensures at'[k'] in tables' && |tables'[at'[k']]| == ENTRIES
      ensures forall j: nat :: j < ENTRIES ==> EntryOk(own', at', k', j, tables'[at'[k']][j])
    {
      assert at[k'] in tables && |tables[at[k']]| == ENTRIES;
      assert at[k'] != at[c];
      forall j: nat | j < ENTRIES ensures EntryOk(own', at', k', j, tables'[at'[k']][j]) {
        assert EntryOk(own, at, k', j, tables[at[k']][j]);
        assert ChildKey(k', j) == c <==> k' == k && j == i;
        assert k' != k ==> at[k'] != at[k];
      }
    }
  }

  lemma RemoveFlat(tables: Tables, own: map<nat, Owner>, at: map<Key, nat>, k: Key, i: nat)
    requires PlacesInv(own, at) && k in at && (k.path.Top? || k.path.Mid?)
    requires ChildKey(k, i) in at && at[k] in tables && i < |tables[at[k]]|
    requires Leafless(tables, at, ChildKey(k, i), ENTRIES)
    ensures var c := ChildKey(k, i);
      SameFlat(tables, at, SetEntry(tables, at, k, i, EMPTY) - {at[c]}, at - {c})
  {
    hide Px;
    var c := ChildKey(k, i);
    var tables' := SetEntry(tables, at, k, i, EMPTY) - {at[c]};
    forall r: nat, v: nat | v < NPAGES ensures Flat(tables', at - {c}, r, v) == Flat(tables, at, r, v) {
      var q := Key(r, Parent(PathOf(v * PGSIZE)));
      if q in at && q != c {
        assert at[q] != at[k] && at[q] != at[c];
      }
    }
  }

  // Removing a root table with nothing below it.
  lemma RemoveRoot(pool: (nat, nat), free: seq<nat>, tables: Tables, own: map<nat, Owner>, at: map<Key, nat>, root: nat)
    requires Inv(pool, free, tables, own, at) && Key(root, Top) in at && NoChildren(at, Key(root, Top))
    ensures Inv(pool, free, tables - {root}, own[root := Held], at - {Key(root, Top)})
    ensures SameFlat(tables, at, tables - {root}, at - {Key(root, Top)})
  {
    hide PagesInv, EntriesInv, Flat, EntryOk, PathOf;
    var k := Key(root, Top);
    assert at[k] == root;
    RemovePlace(own, at, k);
    RootPages(pool, free, tables, own, at, root);
    RootEntries(tables, own, at, root);
    RootFlat(tables, own, at, root);
  }

  lemma RootPages(pool: (nat, nat), free: seq<nat>, tables: Tables, own: map<nat, Owner>, at: map<Key, nat>, root: nat)
    requires PagesInv(pool, free, tables, own) && root in own && own[root] == At(Key(root, Top))
    ensures PagesInv(pool, free, tables - {root}, own[root := Held])
  {
    hide PagesInv;
    PagesRetag(pool, free, tables, own, root, Held, tables - {root});
  }

  lemma RootEntries(tables: Tables, own: map<nat, Owner>, at: map<Key, nat>, root: nat)
    requires PlacesInv(own, at) && EntriesInv(tables, own, at) && Key(root, Top) in at
    ensures EntriesInv(tables - {root}, own[root := Held], at - {Key(root, Top)})
  {
    var at' := at - {Key(root, Top)};
    forall k | k in at' && !k.path.Page?
      ensures at'[k] in tables - {root} && |(tables - {root})[at'[k]]| == ENTRIES
      ensures forall j: nat :: j < ENTRIES ==> EntryOk(own[root := Held], at', k, j, (tables - {root})[at'[k]][j])
    {
      assert at[k] in tables && |tables[at[k]]| == ENTRIES && at[k] != root;
      forall j: nat | j < ENTRIES ensures EntryOk(own[root := Held], at', k, j, (tables - {root})[at'[k]][j]) {
        assert EntryOk(own, at, k, j, tables[at[k]][j]);
      }
    }
  }

  lemma RootFlat(tables: Tables, own: map<nat, Owner>, at: map<Key, nat>, root: nat)
    requires PlacesInv(own, at) && Key(root, Top) in at
    ensures SameFlat(tables, at, tables - {root}, at - {Key(root, Top)})
  {
    hide Px;
    forall r: nat, v: nat | v < NPAGES
      ensures Flat(tables - {root}, at - {Key(root, Top)}, r, v) == Flat(tables, at, r, v)
    {
      var q := Key(r, Parent(PathOf(v * PGSIZE)));
      if q in at {
        assert at[q] != root;
      }
    }
  }

  // A zeroed page becomes the root of a table that maps nothing.
  lemma AddRoot(pool: (nat, nat), free: seq<nat>, tables: Tables, own: map<nat, Owner>, at: map<Key, nat>, p: nat)
    requires Inv(pool, free, tables, own, at) && p in own && own[p] == Held
    ensures var k := Key(p, Top);
      var tables' := tables[p := seq(ENTRIES, _ => EMPTY)];
      && Inv(pool, free, tables', own[p := At(k)], at[k := p])
      && SameFlat(tables, at, tables', at[k := p])
      && forall v: nat :: v < NPAGES ==> Flat(tables, at, p, v) == None
  {
    hide EntriesInv, Flat, EntryOk, PathOf;
    NoKeysOf(own, at, p);
    AddRootEntries(tables, own, at, p);
    AddRootFlat(tables, own, at, p);
  }

  // A page that is in no table is not the root of one.
  lemma NoKeysOf(own: map<nat, Owner>, at: map<Key, nat>, p: nat)
    requires PlacesInv(own, at) && p in own && !own[p].At?
    ensures forall k :: k in at ==> k.root != p
  {
    forall k | k in at ensures k.root != p {
      var t := Key(k.root, Top);
      if !k.path.Top? {
        AncestorIn(own, at, k, t);
        var c := ChildKey(t, Branch(k.path, Top));
        assert Key(c.root, Parent(c.path)) in at;
      }
      assert t in at && own[at[t]] == At(t);
    }
  }

  lemma AddRootEntries(tables: Tables, own: map<nat, Owner>, at: map<Key, nat>, p: nat)
    requires PlacesInv(own, at) && EntriesInv(tables, own, at) && p in own && own[p] == Held
    requires forall k :: k in at ==> k.root != p
    ensures EntriesInv(tables[p := seq(ENTRIES, _ => EMPTY)], own[p := At(Key(p, Top))], at[Key(p, Top) := p])
  {
    var c := Key(p, Top);
    var own', at', tables' := own[p := At(c)], at[c := p], tables[p := seq(ENTRIES, _ => EMPTY)];
    forall k | k in at' && !k.path.Page?
      ensures at'[k] in tables' && |tables'[at'[k]]| == ENTRIES
      ensures forall j: nat :: j < ENTRIES ==> EntryOk(own', at', k, j, tables'[at'[k]][j])
    {
      if k != c {
        assert at[k] in tables && |tables[at[k]]| == ENTRIES && at[k] != p;
        forall j: nat | j < ENTRIES ensures EntryOk(own', at', k, j, tables'[at'[k]][j]) {
          assert EntryOk(own, at, k, j, tables[at[k]][j]);
        }
      }
    }
  }

  lemma AddRootFlat(tables: Tables, own: map<nat, Owner>, at: map<Key, nat>, p: nat)
    requires PlacesInv(own, at) && p in own && own[p] == Held && forall k :: k in at ==> k.root != p
    ensures SameFlat(tables, at, tables[p := seq(ENTRIES, _ => EMPTY)], at[Key(p, Top) := p])
    ensures forall v: nat :: v < NPAGES ==> Flat(tables, at, p, v) == None
  {
    hide Px;
  }
}
