/** What a path means, name by name: laws from which the end of every walk follows, and which names
    an archive's path consists of. */
module TarfsPaths {
  import opened Tarfs

  // ---- names ----

  // The names of a path are those of its parts.
  lemma {:induction false} PartsJoin(a: string, b: string)
    ensures Parts(a + "/" + b) == Parts(a) + Parts(b)
    decreases |a|
  {
    hide Parts, Upto;
    PartsSlash(b);
    if a == "" {
      assert a + "/" + b == "/" + b;
      assert [] + Parts(b) == Parts(b);
    } else if a[0] == '/' {
      PartsSlash(a[1..]);
      PartsSlash(a[1..] + "/" + b);
      assert a == "/" + a[1..] && a + "/" + b == "/" + (a[1..] + "/" + b);
      PartsJoin(a[1..], b);
    } else {
      var k := Upto(a);
      NameFirst(a);
      CutFront(a, b, k);
      NameFirst(a + "/" + b);
      SameUpto(a, b);
      PartsJoin(a[k..], b);
      assert [a[..k]] + (Parts(a[k..]) + Parts(b)) == [a[..k]] + Parts(a[k..]) + Parts(b);
    }
  }

  lemma NameFirst(p: string)
    requires p != "" && p[0] != '/'
    ensures 0 < Upto(p) && Parts(p) == [p[..Upto(p)]] + Parts(p[Upto(p)..])
  {
  }

  lemma SameUpto(a: string, b: string)
    requires a != ""
    ensures Upto(a + "/" + b) == Upto(a)
  {
    UptoIs(a + "/" + b, Upto(a));
  }

  // A name as it stands in a path, and neither of the two with a meaning of their own.
  predicate Simple(name: string) {
    name != "" && '/' !in name && name != "." && name != ".."
  }

  lemma PartsName(name: string)
    requires name != "" && '/' !in name
    ensures Parts(name) == [name]
  {
    OneName(name);
  }

  lemma PartsSlash(p: string)
    ensures Parts("/" + p) == Parts(p) && Parts("") == []
  {
    assert ("/" + p)[1..] == p && Upto("/" + p) == 0;
  }

  // ---- walks ----

  lemma {:induction false} StepsThen(ns: Nodes, cur: nat, a: seq<string>, b: seq<string>, depth: nat)
    requires depth <= MAX_SYMLINK_DEPTH && NULL !in ns
    ensures Steps(ns, cur, a + b, depth) == Steps(ns, Steps(ns, cur, a, depth), b, depth)
    decreases |a|
  {
    hide Follow, Child;
    if a == [] {
      assert a + b == b;
    } else {
      assert a + b == [a[0]] + (a[1..] + b) && a == [a[0]] + a[1..];
      FirstStep(ns, cur, a[0], a[1..] + b, depth);
      FirstStep(ns, cur, a[0], a[1..], depth);
      var r := Steps(ns, cur, [a[0]], depth);
      if r != NULL {
        StepsThen(ns, r, a[1..], b, depth);
      } else {
        NowhereOn(ns, b, depth);
      }
    }
  }

  lemma NowhereOn(ns: Nodes, parts: seq<string>, depth: nat)
    requires depth <= MAX_SYMLINK_DEPTH && NULL !in ns
    ensures Steps(ns, NULL, parts, depth) == NULL
  {
  }

  // A longer path is walked on from where a shorter one ends.
  lemma WalkThen(ns: Nodes, start: nat, a: string, b: string, depth: nat)
    requires depth <= MAX_SYMLINK_DEPTH && NULL !in ns && a != "" && (b == "" || b[0] != '/')
    ensures Walk(ns, start, a + "/" + b, depth) == Walk(ns, Walk(ns, start, a, depth), b, depth)
  {
    hide Steps, Top, Parts;
    PartsJoin(a, b);
    assert (a + "/" + b)[0] == a[0];
    StepsThen(ns, if a[0] == '/' then Top(ns, start) else start, Parts(a), Parts(b), depth);
  }

  // A path with a slash in front starts at the root, wherever it is found.
  lemma WalkAbsolute(ns: Nodes, root: nat, start: nat, p: string, depth: nat)
    requires Inv(ns, root) && start in ns && depth <= MAX_SYMLINK_DEPTH
    ensures Walk(ns, start, "/" + p, depth) == Walk(ns, root, p, depth)
  {
    TopLands(ns, root, start);
    RootIsMember(ns, root);
    TopLands(ns, root, root);
    PartsSlash(p);
    hide Steps, Top, Parts, Inv;
  }

  // Nothing is below a node that is no directory; "." stays, and ".." goes to the parent, or stays at
  // the root.
  lemma WalkDots(ns: Nodes, root: nat, n: nat, depth: nat)
    requires Inv(ns, root) && n in ns && depth <= MAX_SYMLINK_DEPTH
    ensures Walk(ns, n, "", depth) == n
    ensures Walk(ns, n, ".", depth) == if ns[n].kind.Dir? then n else 0
    ensures Walk(ns, n, "..", depth) == if !ns[n].kind.Dir? then 0 else if n == root then root else ns[n].parent
  {
    PartsName(".");
    PartsName("..");
    PartsSlash("");
    DotSteps(ns, n, depth);
    OnlyRoot(ns, root, n);
    hide Parts, Top, Inv, Steps;
  }

  lemma DotSteps(ns: Nodes, n: nat, depth: nat)
    requires n in ns && depth <= MAX_SYMLINK_DEPTH
    ensures Steps(ns, n, [], depth) == n
    ensures Steps(ns, n, ["."], depth) == if ns[n].kind.Dir? then n else 0
    ensures Steps(ns, n, [".."], depth) == if !ns[n].kind.Dir? then 0 else if ns[n].parent == 0 then n else ns[n].parent
  {
    hide Follow, Child;
    assert ["."][1..] == [] && [".."][1..] == [];
  }

  lemma OnlyRoot(ns: Nodes, root: nat, n: nat)
    requires Inv(ns, root) && n in ns
    ensures ns[n].parent == 0 <==> n == root
  {
    hide Member, DistinctNames;
  }

  // The node's child of this name.
  lemma ChildIs(ns: Nodes, root: nat, n: nat, name: string, c: nat)
    requires Inv(ns, root) && n in ns && c in ns && ns[c].parent == n && ns[c].name == name
    ensures Child(ns, n, name) == c && c != NULL
  {
    hide Find, DistinctNames;
    IsMember(ns, root, c);
    IsMember(ns, root, n);
    if Child(ns, n, name) == NULL {
      FindNone(ns, ns[n].children, name, c);
    } else {
      NamedOnce(ns, root, n, Child(ns, n, name), c);
    }
  }

  lemma NamedOnce(ns: Nodes, root: nat, n: nat, c: nat, d: nat)
    requires Inv(ns, root) && n in ns && c in ns && d in ns && c in ns[n].children && d in ns[n].children && ns[c].name == ns[d].name
    ensures c == d
  {
    hide Member;
    assert DistinctNames(ns, ns[n].children);
    var i :| 0 <= i < |ns[n].children| && ns[n].children[i] == c;
    var j :| 0 <= j < |ns[n].children| && ns[n].children[j] == d;
  }

  // Any other name leads to the child that has it, through the link if the child is one: a link's
  // target is walked from the directory the link is in, one level deeper, and not from the eighth on.
  lemma WalkName(ns: Nodes, root: nat, n: nat, name: string, depth: nat, c: nat)
    requires Inv(ns, root) && n in ns && ns[n].kind.Dir? && depth <= 8 && Simple(name)
    requires c in ns && ns[c].parent == n && ns[c].name == name
    ensures Walk(ns, n, name, depth)
         == if !ns[c].kind.Link? then c else if depth == 8 then 0 else Walk(ns, n, ns[c].kind.target, depth + 1)
  {
    PartsName(name);
    ChildIs(ns, root, n, name, c);
    RootIsMember(ns, root);
    OneStep(ns, n, name, depth);
    hide Parts, Top, Steps, Inv;
  }

  lemma OneStep(ns: Nodes, n: nat, name: string, depth: nat)
    requires n in ns && ns[n].kind.Dir? && depth <= MAX_SYMLINK_DEPTH && name != "." && name != ".."
    ensures Steps(ns, n, [name], depth) == Follow(ns, Child(ns, n, name), depth)
  {
    hide Follow, Child;
    assert [name][1..] == [];
  }

  // And nowhere if no child has it, or the node is no directory.
  lemma WalkNoName(ns: Nodes, root: nat, n: nat, name: string, depth: nat)
    requires Inv(ns, root) && n in ns && depth <= MAX_SYMLINK_DEPTH && Simple(name)
    requires ns[n].kind.Dir? ==> forall c :: c in ns ==> ns[c].parent != n || ns[c].name != name
    ensures Walk(ns, n, name, depth) == 0
  {
    PartsName(name);
    RootIsMember(ns, root);
    if ns[n].kind.Dir? {
      OneStep(ns, n, name, depth);
      if Child(ns, n, name) != NULL {
        ChildKnows(ns, root, n, name);
      }
    }
    hide Parts, Top, Inv;
  }

  // So the name after ".." is looked up in the parent directory.
  lemma UpAndDown(ns: Nodes, root: nat, n: nat, p: string, name: string, depth: nat)
    requires Inv(ns, root) && n in ns && depth <= MAX_SYMLINK_DEPTH && p != "" && Simple(name)
    requires var d := Walk(ns, n, p, depth); d in ns && ns[d].kind.Dir? && d != root
    ensures Walk(ns, n, p + "/" + (".." + "/" + name), depth) == Walk(ns, ns[Walk(ns, n, p, depth)].parent, name, depth)
  {
    hide Walk, Inv;
    RootIsMember(ns, root);
    var d := Walk(ns, n, p, depth);
    WalkThen(ns, n, p, ".." + "/" + name, depth);
    WalkThen(ns, d, "..", name, depth);
    WalkDots(ns, root, d, depth);
  }

  // A link to an absolute target leads where the target leads from the root.
  lemma AbsoluteLink(ns: Nodes, root: nat, n: nat, name: string, c: nat, rest: string)
    requires Inv(ns, root) && n in ns && ns[n].kind.Dir? && Simple(name)
    requires c in ns && ns[c].parent == n && ns[c].name == name && ns[c].kind == Link("/" + rest)
    ensures Walk(ns, n, name, 0) == Walk(ns, root, rest, 1)
  {
    hide Walk, Inv;
    WalkName(ns, root, n, name, 0, c);
    WalkAbsolute(ns, root, n, rest, 1);
  }

  // ---- the paths in an archive ----

  lemma {:induction false} StripEndIs(p: string)
    ensures StripEnd(p + "/") == StripEnd(p)
    ensures StripEnd(p) <= p && (StripEnd(p) == "" || StripEnd(p)[|StripEnd(p)| - 1] != '/')
    decreases |p|
  {
    assert (p + "/")[..|p|] == p;
    if p != "" && p[|p| - 1] == '/' {
      assert p == p[..|p| - 1] + "/";
      StripEndIs(p[..|p| - 1]);
    }
  }

  // Slashes at the end do not count, nor does any number of "./" and then "/" in front.
  lemma StripEnds(p: string)
    ensures Strip(p + "/") == Strip(p)
  {
    StripEndIs(p);
  }

  lemma StripFront(p: string)
    requires p != "" && p[|p| - 1] != '/'
    ensures Strip("./" + p) == Strip(p)
    ensures p[0] != '.' ==> Strip("/" + p) == Strip(p)
    ensures p[0] != '.' && p[0] != '/' ==> Strip(p) == p
  {
    hide StripStart;
    var q, r := "./" + p, "/" + p;
    assert q[|q| - 1] == p[|p| - 1] && r[|r| - 1] == p[|p| - 1];
    NoSlashEnd(p);
    NoSlashEnd(q);
    NoSlashEnd(r);
    assert q[0] == '.' && q[1] == '/' && q[2..] == p && StripDots(q) == StripDots(p);
    assert r[0] == '/' && StripDots(r) == r && r[1..] == p;
    OneSlash(p);
  }

  lemma NoSlashEnd(p: string)
    requires p != "" && p[|p| - 1] != '/'
    ensures StripEnd(p) == p
  {
  }

  lemma OneSlash(p: string)
    ensures StripStart("/" + p) == StripStart(p)
    ensures p != "" && p[0] != '/' ==> StripStart(p) == p
  {
    assert ("/" + p)[1..] == p;
  }

  lemma {:induction false} NoSlashLeft(p: string)
    requires p == "" || p[|p| - 1] != '/'
    ensures var s := StripStart(StripDots(p)); s == "" || s[|s| - 1] != '/'
    decreases |p|
  {
    if |p| >= 2 && p[0] == '.' && p[1] == '/' {
      assert |p| > 2;
      NoSlashLeft(p[2..]);
    } else {
      NoSlashStart(p);
    }
  }

  lemma {:induction false} NoSlashStart(p: string)
    requires p == "" || p[|p| - 1] != '/'
    ensures StripStart(p) == "" || StripStart(p)[|StripStart(p)| - 1] != '/'
    decreases |p|
  {
    if p != "" && p[0] == '/' {
      NoSlashStart(p[1..]);
    }
  }

  // An entry is looked at for its kind and a name that is left over, and its way is its path's names.
  lemma EntryNames(e: Entry)
    ensures Named(e) <==> (e.flag == '\0' || e.flag == '0' || e.flag == '1' || e.flag == '2' || e.flag == '5') && Strip(e.path) != ""
    ensures Named(e) ==> PathOf(e) == Parts(Strip(e.path))
    ensures Makes(e) == if e.flag == '5' then Dir else if e.flag == '2' then Link(e.link) else File(e.content)
  {
    hide Parts, StripStart, StripDots;
    StripEndIs(e.path);
    NoSlashLeft(StripEnd(e.path));
    if Split(Strip(e.path)) < |Strip(e.path)| {
      PartsOfEntry(Strip(e.path));
    }
  }
}
