/** How many tables a walk towards an address finds missing, and how a table put in its way or an
    entry written at its end changes that for every other address. */
module MissingTables {
  import opened Sizes
  import opened Wrappers
  import opened PteInterface
  import opened PageTree

  // The tables that have to be made before there is a lowest table for va: one for each level from
  // the entry on which is no table.
  ghost function Missing<W>(m: Mmu<W>, mem: Memory<W>, f: nat, level: nat, va: nat): (n: nat)
    ensures n <= level
    decreases level
  {
    if level == 0 then 0
    else
      var w := Word(m, mem, f, Index(va, level));
      if IsTable(m, w, level) then Missing(m, mem, m.phys(w), level - 1, va) else level
  }

  // From this level down the ways of a and b go through different tables.
  function Branch(a: nat, b: nat, level: nat): (n: nat)
    ensures n <= level
  {
    if level == 0 then 0 else if Index(a, level) == Index(b, level) then Branch(a, b, level - 1) else level
  }

  lemma {:induction false} SelfBranch(a: nat, level: nat)
    ensures Branch(a, a, level) == 0
    decreases level
  {
    if level > 0 {
      SelfBranch(a, level - 1);
    }
  }

  // Addresses that share a table both have it or both lack it.
  lemma {:induction false} SharedMissing<W>(m: Mmu<W>, mem: Memory<W>, f: nat, level: nat, a: nat, b: nat, l: nat)
    requires Branch(a, b, level) <= l
    ensures l < Missing(m, mem, f, level, a) <==> l < Missing(m, mem, f, level, b)
    decreases level
  {
    if level > 0 && Index(a, level) == Index(b, level) {
      var w := Word(m, mem, f, Index(a, level));
      if IsTable(m, w, level) {
        SharedMissing(m, mem, m.phys(w), level - 1, a, b, l);
      }
    }
  }

  lemma {:induction false} MissingFramed<W>(m: Mmu<W>, mem: Memory<W>, mem': Memory<W>, f: nat, level: nat, n: nat, va: nat)
    requires Tree(m, mem, f, level, n) && Index(va, level) < n && Agree(mem, mem', Tables(m, mem, f, level, n))
    ensures Missing(m, mem', f, level, va) == Missing(m, mem, f, level, va)
    decreases level
  {
    if level > 0 {
      var i := Index(va, level);
      var w := Word(m, mem, f, i);
      assert EntryTree(m, mem, f, level, i) && f in Tables(m, mem, f, level, n);
      if IsTable(m, w, level) {
        assert ChildTables(m, mem, f, level, i) <= Tables(m, mem, f, level, n);
        IndexBound(va, level - 1);
        MissingFramed(m, mem, mem', m.phys(w), level - 1, PT_ENTRIES, va);
      }
    }
  }

  // With the walk at a table, what is missing is missing below it.
  lemma {:induction false} MissingBelow<W>(m: Mmu<W>, mem: Memory<W>, f: nat, level: nat, va: nat, t: nat, l: nat, a: nat)
    requires OnPath(m, mem, f, level, va, t, l) && Branch(a, va, level) <= l
    ensures Missing(m, mem, f, level, a) == Missing(m, mem, t, l, a)
    decreases level
  {
    if l < level {
      MissingBelow(m, mem, m.phys(Word(m, mem, f, Index(va, level))), level - 1, va, t, l, a);
    }
  }

  // Nothing is missing exactly if the walk can be made to its end.
  lemma {:induction false} ThereIsAWay<W>(m: Mmu<W>, mem: Memory<W>, f: nat, level: nat, va: nat) returns (t: nat)
    requires Missing(m, mem, f, level, va) == 0
    ensures OnPath(m, mem, f, level, va, t, 0)
    decreases level
  {
    if level == 0 {
      t := f;
    } else {
      t := ThereIsAWay(m, mem, m.phys(Word(m, mem, f, Index(va, level))), level - 1, va);
    }
  }

  lemma {:induction false} WayMissesNothing<W>(m: Mmu<W>, mem: Memory<W>, f: nat, level: nat, va: nat, t: nat)
    requires OnPath(m, mem, f, level, va, t, 0)
    ensures Missing(m, mem, f, level, va) == 0
    decreases level
  {
    if level > 0 {
      WayMissesNothing(m, mem, m.phys(Word(m, mem, f, Index(va, level))), level - 1, va, t);
    }
  }

  // Memory differs in table t, which va's walk meets at level l, in t's entry for va, and elsewhere
  // in none of the tables.
  ghost predicate OnlyEnd<W>(m: Mmu<W>, mem: Memory<W>, mem': Memory<W>, f: nat, level: nat, n: nat, va: nat, t: nat, l: nat) {
    && Tree(m, mem, f, level, n) && OnPath(m, mem, f, level, va, t, l) && Index(va, level) < n
    && Agree(mem, mem', Tables(m, mem, f, level, n) - {t})
    && forall i :: 0 <= i < PT_ENTRIES && i != Index(va, l) ==> Word(m, mem', t, i) == Word(m, mem, t, i)
  }

  // For an address that takes another way at t or before, nothing has changed.
  lemma {:induction false} OtherWay<W>(m: Mmu<W>, mem: Memory<W>, mem': Memory<W>, f: nat, level: nat, n: nat, va: nat, t: nat, l: nat, a: nat)
    requires OnlyEnd(m, mem, mem', f, level, n, va, t, l) && l <= level && Index(a, level) < n
    requires Branch(a, va, level) >= l && (l == 0 ==> level == 0 || Branch(a, va, level) > 0)
    ensures Missing(m, mem', f, level, a) == Missing(m, mem, f, level, a)
    decreases level
  {
    if level > 0 {
      var i, k := Index(a, level), level - 1;
      var w := Word(m, mem, f, i);
      assert EntryTree(m, mem, f, level, i) && EntryTree(m, mem, f, level, Index(va, level));
      IndexBound(a, level);
      IndexBound(a, k);
      IndexBound(va, k);
      EndBelow(m, mem, f, level, n, va, t, l);
      assert f in Tables(m, mem, f, level, n);
      assert Word(m, mem', f, i) == w;
      if IsTable(m, w, level) {
        assert ChildTables(m, mem, f, level, i) <= Tables(m, mem, f, level, n);
        if i == Index(va, level) {
          OtherWay(m, mem, mem', m.phys(w), k, PT_ENTRIES, va, t, l, a);
        } else {
          assert t == f || t in ChildTables(m, mem, f, level, Index(va, level));
          assert t !in ChildTables(m, mem, f, level, i);
          MissingFramed(m, mem, mem', m.phys(w), k, PT_ENTRIES, a);
        }
      }
    }
  }

  // The walk's end is the table itself or one below the entry it takes.
  lemma EndBelow<W>(m: Mmu<W>, mem: Memory<W>, f: nat, level: nat, n: nat, va: nat, t: nat, l: nat)
    requires Tree(m, mem, f, level, n) && OnPath(m, mem, f, level, va, t, l) && Index(va, level) < n && l <= level
    ensures l == level ==> t == f
    ensures l < level ==> t != f && t in ChildTables(m, mem, f, level, Index(va, level))
  {
    if l < level {
      var i := Index(va, level);
      assert EntryTree(m, mem, f, level, i) && f !in ChildTables(m, mem, f, level, i);
      var c := m.phys(Word(m, mem, f, i));
      IndexBound(va, level - 1);
      PathTables(m, mem, c, level - 1, PT_ENTRIES, va, t, l);
      assert t in Tables(m, mem, t, l, Width(level - 1, l, PT_ENTRIES));
    }
  }

  // A table put at the walk's end is one missing table less for every address that goes that way.
  lemma {:induction false} GraftMissing<W>(m: Mmu<W>, mem: Memory<W>, mem': Memory<W>, f: nat, level: nat, n: nat, va: nat, t: nat, l: nat,
                                           c: nat, page: seq<W>, a: nat)
    requires OnlyEnd(m, mem, mem', f, level, n, va, t, l) && 0 < l <= level && Index(a, level) < n
    requires !IsTable(m, Word(m, mem, t, Index(va, l)), l)
    requires var w := Word(m, mem', t, Index(va, l)); IsTable(m, w, l) && m.phys(w) == c
    requires c in mem' && mem'[c] == page && OnlyLeaves(m, page, l - 1)
    ensures Missing(m, mem', f, level, a) == if Branch(a, va, level) < l then l - 1 else Missing(m, mem, f, level, a)
    ensures Branch(a, va, level) < l ==> Missing(m, mem, f, level, a) == l
    decreases level
  {
    hide Index;
    if Branch(a, va, level) >= l {
      OtherWay(m, mem, mem', f, level, n, va, t, l, a);
    } else if l == level {
      IndexBound(a, l);
      IndexBound(a, l - 1);
    } else {
      var i, k := Index(va, level), level - 1;
      EndBelow(m, mem, f, level, n, va, t, l);
      assert EntryTree(m, mem, f, level, i) && f in Tables(m, mem, f, level, n);
      assert Word(m, mem', f, i) == Word(m, mem, f, i);
      assert ChildTables(m, mem, f, level, i) <= Tables(m, mem, f, level, n);
      IndexBound(a, k);
      IndexBound(va, k);
      GraftMissing(m, mem, mem', m.phys(Word(m, mem, f, i)), k, PT_ENTRIES, va, t, l, c, page, a);
    }
  }

  // Writing an entry of a lowest table makes no table and takes none away.
  lemma {:induction false} WriteMissing<W>(m: Mmu<W>, mem: Memory<W>, mem': Memory<W>, f: nat, level: nat, n: nat, va: nat, t: nat, a: nat)
    requires OnlyEnd(m, mem, mem', f, level, n, va, t, 0) && Index(a, level) < n
    ensures Missing(m, mem', f, level, a) == Missing(m, mem, f, level, a)
    decreases level
  {
    if level > 0 {
      if Branch(a, va, level) > 0 {
        OtherWay(m, mem, mem', f, level, n, va, t, 0, a);
      } else {
        var i, k := Index(va, level), level - 1;
        EndBelow(m, mem, f, level, n, va, t, 0);
        assert EntryTree(m, mem, f, level, i) && f in Tables(m, mem, f, level, n);
        assert Word(m, mem', f, i) == Word(m, mem, f, i);
        assert ChildTables(m, mem, f, level, i) <= Tables(m, mem, f, level, n);
        IndexBound(a, k);
        IndexBound(va, k);
        WriteMissing(m, mem, mem', m.phys(Word(m, mem, f, i)), k, PT_ENTRIES, va, t, a);
      }
    }
  }
}
