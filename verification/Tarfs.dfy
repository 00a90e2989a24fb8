/** tarfs: a tree built from an archive's entries, and paths walked through it with symbolic
    links. Nodes are numbered in the order in which they are made; 0 is no node. */
module Tarfs {
  const NULL: nat := 0
  const MAX_SYMLINK_DEPTH: nat := 8

  datatype Kind = Dir | File(content: nat) | Link(target: string)
  // Children newest first.
  datatype Node = Node(name: string, kind: Kind, parent: nat, children: seq<nat>)
  type Nodes = map<nat, Node>

  // ---- the tree ----

  ghost predicate Member(ns: Nodes, n: nat) {
    && n != NULL && n in ns && ns[n].parent < n
    && (ns[n].parent != NULL ==> ns[n].parent in ns && n in ns[ns[n].parent].children)
    && (forall i :: 0 <= i < |ns[n].children| ==> ns[n].children[i] in ns && ns[ns[n].children[i]].parent == n)
  }

  ghost predicate DistinctNames(ns: Nodes, cs: seq<nat>) {
    forall i, j :: 0 <= i < j < |cs| && cs[i] in ns && cs[j] in ns ==> ns[cs[i]].name != ns[cs[j]].name
  }

  // Parents come before their children, so there is no cycle; siblings have different names; only
  // the root, a directory, has no parent.
  ghost predicate Inv(ns: Nodes, root: nat) {
    && root in ns && ns[root].kind.Dir? && ns[root].parent == NULL
    && (forall n :: n in ns ==> Member(ns, n) && DistinctNames(ns, ns[n].children))
    && (forall n :: n in ns && ns[n].parent == NULL ==> n == root)
  }

  // All the node's ancestors are directories.
  ghost predicate Below(ns: Nodes, n: nat)
    decreases n
  {
    n in ns && (ns[n].parent == NULL || (ns[n].parent < n && ns[n].parent in ns && ns[ns[n].parent].kind.Dir?
                                         && Below(ns, ns[n].parent)))
  }

  // tarfs_find_child
  function Find(ns: Nodes, cs: seq<nat>, name: string): (c: nat)
    ensures c != NULL ==> c in cs && c in ns && ns[c].name == name
  {
    if cs == [] then NULL
    else if cs[0] in ns && cs[0] != NULL && ns[cs[0]].name == name then cs[0]
    else Find(ns, cs[1..], name)
  }

  function Child(ns: Nodes, n: nat, name: string): nat {
    if n in ns then Find(ns, ns[n].children, name) else NULL
  }

  // ---- paths ----

  function Upto(path: string): (k: nat)
    ensures k <= |path| && (forall i :: 0 <= i < k ==> path[i] != '/') && (k < |path| ==> path[k] == '/')
  {
    if path == "" || path[0] == '/' then 0 else 1 + Upto(path[1..])
  }

  // The names between the slashes.
  function Parts(path: string): seq<string>
    decreases |path|
  {
    if path == "" then []
    else var k := Upto(path);
         if k == 0 then Parts(path[1..]) else [path[..k]] + Parts(path[k..])
  }

  function Top(ns: Nodes, n: nat): nat
    decreases n
  {
    if n in ns && ns[n].parent != NULL && ns[n].parent < n then Top(ns, ns[n].parent) else n
  }

  // tarfs_follow: links are followed eight deep.
  function Follow(ns: Nodes, n: nat, depth: nat): nat
    requires depth <= MAX_SYMLINK_DEPTH
    decreases MAX_SYMLINK_DEPTH - depth, 0, 0
  {
    if n !in ns || !ns[n].kind.Link? then n
    else if depth >= MAX_SYMLINK_DEPTH then NULL
    else Walk(ns, ns[n].parent, ns[n].kind.target, depth + 1)
  }

  // tarfs_walk
  function Walk(ns: Nodes, start: nat, path: string, depth: nat): nat
    requires depth <= MAX_SYMLINK_DEPTH
    decreases MAX_SYMLINK_DEPTH - depth, |Parts(path)|, 1
  {
    Steps(ns, if path != "" && path[0] == '/' then Top(ns, start) else start, Parts(path), depth)
  }

  function Steps(ns: Nodes, cur: nat, parts: seq<string>, depth: nat): nat
    requires depth <= MAX_SYMLINK_DEPTH
    decreases MAX_SYMLINK_DEPTH - depth, |parts|, 0
  {
    if parts == [] then cur
    else if cur !in ns || !ns[cur].kind.Dir? then NULL
    else if parts[0] == "." then Steps(ns, cur, parts[1..], depth)
    else if parts[0] == ".." then Steps(ns, if ns[cur].parent != NULL then ns[cur].parent else cur, parts[1..], depth)
    else
      var next := Follow(ns, Child(ns, cur, parts[0]), depth);
      if next == NULL then NULL else Steps(ns, next, parts[1..], depth)
  }

  // ---- where a walk can end ----

  // A place from which walking is safe, and where it can end.
  ghost predicate Landing(ns: Nodes, n: nat) {
    Below(ns, n) && !ns[n].kind.Link?
  }

  lemma {:induction false} TopLands(ns: Nodes, root: nat, n: nat)
    requires Inv(ns, root) && n in ns
    ensures Top(ns, n) == root && Landing(ns, root)
    decreases n
  {
    assert Member(ns, n) && Member(ns, root);
    if ns[n].parent != NULL {
      TopLands(ns, root, ns[n].parent);
    }
  }

  lemma ChildBelow(ns: Nodes, root: nat, cur: nat, name: string)
    requires Inv(ns, root) && Landing(ns, cur) && ns[cur].kind.Dir? && Child(ns, cur, name) != NULL
    ensures var c := Child(ns, cur, name); Below(ns, c) && ns[c].parent == cur
  {
    var c := Child(ns, cur, name);
    assert Member(ns, cur) && Member(ns, c);
    var i :| 0 <= i < |ns[cur].children| && ns[cur].children[i] == c;
  }

  lemma ParentLands(ns: Nodes, root: nat, cur: nat)
    requires Inv(ns, root) && Landing(ns, cur)
    ensures NULL !in ns && cur in ns && (ns[cur].parent != NULL ==> Landing(ns, ns[cur].parent))
  {
    assert Member(ns, cur) && (NULL in ns ==> Member(ns, NULL));
  }

  // Walking from a directory below directories ends nowhere, or at a node that is no link and
  // again has only directories above it, however the links run.
  lemma {:induction false} StepsLand(ns: Nodes, root: nat, cur: nat, parts: seq<string>, depth: nat)
    requires Inv(ns, root) && Landing(ns, cur) && depth <= MAX_SYMLINK_DEPTH
    ensures var r := Steps(ns, cur, parts, depth); r != NULL ==> Landing(ns, r)
    decreases MAX_SYMLINK_DEPTH - depth, |parts|
  {
    hide Inv, Below, Find, Walk, Parts, Top;
    ParentLands(ns, root, cur);
    if parts != [] && ns[cur].kind.Dir? {
      if parts[0] == "." {
        StepsLand(ns, root, cur, parts[1..], depth);
      } else if parts[0] == ".." {
        StepsLand(ns, root, if ns[cur].parent != NULL then ns[cur].parent else cur, parts[1..], depth);
      } else {
        var c := Child(ns, cur, parts[0]);
        if c != NULL {
          ChildBelow(ns, root, cur, parts[0]);
          if ns[c].kind.Link? && depth < MAX_SYMLINK_DEPTH {
            WalkLands(ns, root, cur, ns[c].kind.target, depth + 1);
          }
        }
        var next := Follow(ns, c, depth);
        if next != NULL {
          StepsLand(ns, root, next, parts[1..], depth);
        }
      }
    }
  }

  lemma {:induction false} WalkLands(ns: Nodes, root: nat, start: nat, path: string, depth: nat)
    requires Inv(ns, root) && Landing(ns, start) && depth <= MAX_SYMLINK_DEPTH
    ensures var r := Walk(ns, start, path, depth); r != NULL ==> Landing(ns, r)
    decreases MAX_SYMLINK_DEPTH - depth, |Parts(path)| + 1
  {
    TopLands(ns, root, start);
    hide Inv, Landing, Steps, Top, Parts;
    StepsLand(ns, root, if path != "" && path[0] == '/' then Top(ns, start) else start, Parts(path), depth);
  }

  // A link to itself leads nowhere, from whatever depth it is met.
  lemma {:induction false} SelfLinkLeadsNowhere(ns: Nodes, n: nat, depth: nat)
    requires depth <= MAX_SYMLINK_DEPTH && NULL !in ns && n in ns && ns[n].kind.Link?
    requires var name, p := ns[n].kind.target, ns[n].parent;
             Parts(name) == [name] && name != "." && name != ".." && name != "" && name[0] != '/'
             && p in ns && ns[p].kind.Dir? && Child(ns, p, name) == n
    ensures Follow(ns, n, depth) == NULL
    decreases MAX_SYMLINK_DEPTH - depth
  {
    if depth < MAX_SYMLINK_DEPTH {
      SelfLinkLeadsNowhere(ns, n, depth + 1);
      var name, p := ns[n].kind.target, ns[n].parent;
      assert Steps(ns, p, [name], depth + 1) == NULL;
    }
  }

  // ---- growth changes no walk that arrives ----

  // Every node is still there, and every child found before is still the one found.
  ghost predicate Extends(ns: Nodes, ns': Nodes) {
    forall n :: n in ns ==> Same(ns, ns', n)
  }

  ghost predicate Same(ns: Nodes, ns': Nodes, n: nat) {
    && n in ns && n in ns' && ns'[n].name == ns[n].name && ns'[n].kind == ns[n].kind && ns'[n].parent == ns[n].parent
    && forall name :: Child(ns, n, name) != NULL ==> Child(ns', n, name) == Child(ns, n, name)
  }

  lemma {:induction false} TopSame(ns: Nodes, ns': Nodes, root: nat, n: nat)
    requires Inv(ns, root) && Extends(ns, ns') && n in ns
    ensures Top(ns', n) == Top(ns, n)
    decreases n
  {
    assert Same(ns, ns', n) && Member(ns, n);
    if ns[n].parent != NULL {
      TopSame(ns, ns', root, ns[n].parent);
    }
  }

  lemma {:induction false} StepsSame(ns: Nodes, ns': Nodes, root: nat, cur: nat, parts: seq<string>, depth: nat)
    requires Inv(ns, root) && Extends(ns, ns') && Landing(ns, cur) && depth <= MAX_SYMLINK_DEPTH
    requires Steps(ns, cur, parts, depth) != NULL
    ensures Steps(ns', cur, parts, depth) == Steps(ns, cur, parts, depth)
    decreases MAX_SYMLINK_DEPTH - depth, |parts|
  {
    hide Inv, Below, Find, Walk, Parts, Top, Child;
    ParentLands(ns, root, cur);
    assert Same(ns, ns', cur);
    if parts != [] {
      if parts[0] == "." {
        StepsSame(ns, ns', root, cur, parts[1..], depth);
      } else if parts[0] == ".." {
        StepsSame(ns, ns', root, if ns[cur].parent != NULL then ns[cur].parent else cur, parts[1..], depth);
      } else {
        NextSame(ns, ns', root, cur, parts[0], depth);
        StepsSame(ns, ns', root, Follow(ns, Child(ns, cur, parts[0]), depth), parts[1..], depth);
      }
    }
  }

  lemma {:induction false} NextSame(ns: Nodes, ns': Nodes, root: nat, cur: nat, name: string, depth: nat)
    requires Inv(ns, root) && Extends(ns, ns') && Landing(ns, cur) && ns[cur].kind.Dir? && depth <= MAX_SYMLINK_DEPTH
    requires Follow(ns, Child(ns, cur, name), depth) != NULL
    ensures Follow(ns', Child(ns', cur, name), depth) == Follow(ns, Child(ns, cur, name), depth)
    ensures Landing(ns, Follow(ns, Child(ns, cur, name), depth))
    decreases MAX_SYMLINK_DEPTH - depth, 0
  {
    hide Inv, Below, Find, Walk, Parts, Top, Child;
    ParentLands(ns, root, cur);
    var c := Child(ns, cur, name);
    ChildBelow(ns, root, cur, name);
    assert Same(ns, ns', cur) && Same(ns, ns', c);
    if ns[c].kind.Link? {
      WalkLands(ns, root, cur, ns[c].kind.target, depth + 1);
      WalkSame(ns, ns', root, cur, ns[c].kind.target, depth + 1);
    }
  }

  // A path that leads somewhere leads there still after the tree has grown.
  lemma {:induction false} WalkSame(ns: Nodes, ns': Nodes, root: nat, start: nat, path: string, depth: nat)
    requires Inv(ns, root) && Extends(ns, ns') && Landing(ns, start) && depth <= MAX_SYMLINK_DEPTH
    requires Walk(ns, start, path, depth) != NULL
    ensures Walk(ns', start, path, depth) == Walk(ns, start, path, depth)
    decreases MAX_SYMLINK_DEPTH - depth, |Parts(path)| + 1
  {
    TopLands(ns, root, start);
    TopSame(ns, ns', root, start);
    hide Inv, Landing, Steps, Top, Parts, Extends;
    StepsSame(ns, ns', root, if path != "" && path[0] == '/' then Top(ns, start) else start, Parts(path), depth);
  }

  // ---- making nodes ----

  // tarfs_create_node and tarfs_add_child
  ghost function Grown(ns: Nodes, parent: nat, c: nat, name: string, kind: Kind): Nodes
    requires parent in ns && parent != c
  {
    ns[parent := ns[parent].(children := [c] + ns[parent].children)][c := Node(name, kind, parent, [])]
  }

  lemma {:induction false} FindNone(ns: Nodes, cs: seq<nat>, name: string, c: nat)
    requires Find(ns, cs, name) == NULL && c in cs && c in ns && c != NULL
    ensures ns[c].name != name
    decreases |cs|
  {
    if cs[0] != c {
      FindNone(ns, cs[1..], name, c);
    }
  }

  lemma {:induction false} FindSame(ns: Nodes, ns': Nodes, cs: seq<nat>, name: string)
    requires forall n :: n in cs && n in ns ==> n in ns' && ns'[n].name == ns[n].name
    requires forall n :: n in cs ==> n in ns
    ensures Find(ns', cs, name) == Find(ns, cs, name)
    decreases |cs|
  {
    if cs != [] {
      assert cs[0] in cs;
      FindSame(ns, ns', cs[1..], name);
    }
  }

  ghost predicate Growing(ns: Nodes, root: nat, parent: nat, c: nat, name: string) {
    && Inv(ns, root) && parent in ns && c != NULL && (forall n :: n in ns ==> n < c)
    && Child(ns, parent, name) == NULL
  }

  lemma IsMember(ns: Nodes, root: nat, n: nat)
    requires Inv(ns, root) && n in ns
    ensures Member(ns, n) && n != NULL
  {
    hide DistinctNames;
  }

  lemma GrownSame(ns: Nodes, root: nat, parent: nat, c: nat, name: string, kind: Kind, n: nat)
    requires Growing(ns, root, parent, c, name) && n in ns
    ensures Same(ns, Grown(ns, parent, c, name, kind), n)
  {
    hide Inv, Find;
    IsMember(ns, root, n);
    forall m ensures Child(ns, n, m) != NULL ==> Child(Grown(ns, parent, c, name, kind), n, m) == Child(ns, n, m) {
      if Child(ns, n, m) != NULL {
        FoundStill(ns, parent, c, name, kind, n, m);
      }
    }
  }

  lemma FoundStill(ns: Nodes, parent: nat, c: nat, name: string, kind: Kind, n: nat, m: string)
    requires parent in ns && c !in ns && n in ns && (forall i :: 0 <= i < |ns[n].children| ==> ns[n].children[i] in ns)
    requires Child(ns, parent, name) == NULL && Child(ns, n, m) != NULL
    ensures Child(Grown(ns, parent, c, name, kind), n, m) == Child(ns, n, m)
  {
    var ns' := Grown(ns, parent, c, name, kind);
    FindSame(ns, ns', ns[n].children, m);
    if n == parent {
      assert ns'[n].children[1..] == ns[n].children;
    }
  }

  lemma GrownExtends(ns: Nodes, root: nat, parent: nat, c: nat, name: string, kind: Kind)
    requires Growing(ns, root, parent, c, name)
    ensures Extends(ns, Grown(ns, parent, c, name, kind))
    ensures Child(Grown(ns, parent, c, name, kind), parent, name) == c
  {
    hide Inv, Same, Child;
    forall n | n in ns ensures Same(ns, Grown(ns, parent, c, name, kind), n) {
      GrownSame(ns, root, parent, c, name, kind, n);
    }
    NewChild(ns, parent, c, name, kind);
  }

  lemma NewChild(ns: Nodes, parent: nat, c: nat, name: string, kind: Kind)
    requires parent in ns && parent != c && c != NULL
    ensures Child(Grown(ns, parent, c, name, kind), parent, name) == c
  {
  }

  lemma GrownMember(ns: Nodes, parent: nat, c: nat, name: string, kind: Kind, n: nat)
    requires parent in ns && c != NULL && (forall m :: m in ns ==> m < c) && n in ns && Member(ns, n)
    ensures Member(Grown(ns, parent, c, name, kind), n)
  {
    var ns' := Grown(ns, parent, c, name, kind);
    forall i | 0 <= i < |ns'[n].children|
      ensures ns'[n].children[i] in ns' && ns'[ns'[n].children[i]].parent == n
    {
      assert n == parent && i > 0 ==> ns'[n].children[i] == ns[n].children[i - 1];
    }
  }

  lemma GrownNames(ns: Nodes, parent: nat, c: nat, name: string, kind: Kind, n: nat)
    requires parent in ns && c != NULL && (forall m :: m in ns ==> m < c) && n in ns && Member(ns, n)
    requires DistinctNames(ns, ns[n].children) && Child(ns, parent, name) == NULL && NULL !in ns
    ensures DistinctNames(Grown(ns, parent, c, name, kind), Grown(ns, parent, c, name, kind)[n].children)
  {
    var ns' := Grown(ns, parent, c, name, kind);
    if n == parent {
      forall i | 0 <= i < |ns[n].children| ensures ns[ns[n].children[i]].name != name && ns[n].children[i] != c {
        FindNone(ns, ns[n].children, name, ns[n].children[i]);
      }
      forall i, j | 0 <= i < j < |ns'[n].children| ensures ns'[ns'[n].children[i]].name != ns'[ns'[n].children[j]].name {
        assert ns'[n].children[j] == ns[n].children[j - 1];
      }
    }
  }

  lemma GrownKeeps(ns: Nodes, root: nat, parent: nat, c: nat, name: string, kind: Kind)
    requires Growing(ns, root, parent, c, name)
    ensures Inv(Grown(ns, parent, c, name, kind), root)
  {
    hide Member, DistinctNames, Child;
    var ns' := Grown(ns, parent, c, name, kind);
    RootIsMember(ns, root);
    forall n | n in ns' ensures Member(ns', n) && DistinctNames(ns', ns'[n].children) {
      if n == c {
        NewMember(ns, root, parent, c, name, kind);
      } else {
        GrownMember(ns, parent, c, name, kind, n);
        GrownNames(ns, parent, c, name, kind, n);
      }
    }
    IsMember(ns, root, parent);
  }

  lemma NewMember(ns: Nodes, root: nat, parent: nat, c: nat, name: string, kind: Kind)
    requires Growing(ns, root, parent, c, name)
    ensures var ns' := Grown(ns, parent, c, name, kind); Member(ns', c) && DistinctNames(ns', ns'[c].children)
  {
    IsMember(ns, root, parent);
    var ns' := Grown(ns, parent, c, name, kind);
    assert ns'[parent].children[0] == c;
  }

  // Down by names alone, whatever the nodes are: the way tarfs_resolve_dir_path goes.
  function Descend(ns: Nodes, n: nat, parts: seq<string>): nat
    decreases |parts|
  {
    if parts == [] || n == NULL then n else Descend(ns, Child(ns, n, parts[0]), parts[1..])
  }

  lemma {:induction false} DescendSame(ns: Nodes, ns': Nodes, n: nat, parts: seq<string>)
    requires Extends(ns, ns') && n in ns && Descend(ns, n, parts) != NULL
    ensures Descend(ns', n, parts) == Descend(ns, n, parts)
    decreases |parts|
  {
    hide Find;
    assert Same(ns, ns', n);
    if parts != [] {
      var c := Child(ns, n, parts[0]);
      assert c != NULL;
      ChildThere(ns, n, parts[0]);
      DescendSame(ns, ns', c, parts[1..]);
    }
  }

  lemma {:induction false} DescendOn(ns: Nodes, n: nat, parts: seq<string>, name: string)
    requires Descend(ns, n, parts) != NULL
    ensures Descend(ns, n, parts + [name]) == Child(ns, Descend(ns, n, parts), name)
    decreases |parts|
  {
    if parts == [] {
      assert ([] + [name])[1..] == [];
    } else {
      assert n != NULL && (parts + [name])[1..] == parts[1..] + [name];
      DescendOn(ns, Child(ns, n, parts[0]), parts[1..], name);
    }
  }

  // All plain names of directories, down to a node that is no link.
  ghost predicate Straight(ns: Nodes, n: nat, parts: seq<string>)
    decreases |parts|
  {
    n in ns && !ns[n].kind.Link?
    && (parts != [] ==> ns[n].kind.Dir? && parts[0] != "." && parts[0] != ".." && Straight(ns, Child(ns, n, parts[0]), parts[1..]))
  }

  // On such a way, walking arrives where descending does.
  lemma {:induction false} WalkIsDescent(ns: Nodes, n: nat, parts: seq<string>, depth: nat)
    requires Straight(ns, n, parts) && depth <= MAX_SYMLINK_DEPTH && NULL !in ns
    ensures Steps(ns, n, parts, depth) == Descend(ns, n, parts) != NULL
    decreases |parts|
  {
    hide Find;
    if parts != [] {
      WalkIsDescent(ns, Child(ns, n, parts[0]), parts[1..], depth);
    }
  }

  lemma {:induction false} DescendPrefix(ns: Nodes, n: nat, parts: seq<string>, more: seq<string>)
    requires Descend(ns, n, parts + more) != NULL
    ensures Descend(ns, n, parts) != NULL
    decreases |parts|
  {
    if parts == [] {
      assert parts + more == more;
      DescendFromNull(ns, more);
    } else {
      assert (parts + more)[1..] == parts[1..] + more;
      if n != NULL {
        DescendPrefix(ns, Child(ns, n, parts[0]), parts[1..], more);
      }
    }
  }

  lemma DescendFromNull(ns: Nodes, parts: seq<string>)
    ensures Descend(ns, NULL, parts) == NULL
  {
  }

  // One more name, taken off the end.
  lemma LastName(ns: Nodes, root: nat, parts: seq<string>)
    requires parts != [] && Descend(ns, root, parts) != NULL
    ensures var front := parts[..|parts| - 1];
            Descend(ns, root, front) != NULL
            && Descend(ns, root, parts) == Child(ns, Descend(ns, root, front), parts[|parts| - 1])
  {
    var front := parts[..|parts| - 1];
    assert parts == front + [parts[|parts| - 1]];
    DescendPrefix(ns, root, front, [parts[|parts| - 1]]);
    DescendOn(ns, root, front, parts[|parts| - 1]);
  }

  // A child knows its name and its parent.
  lemma ChildKnows(ns: Nodes, root: nat, n: nat, name: string)
    requires Inv(ns, root) && Child(ns, n, name) != NULL
    ensures var c := Child(ns, n, name); c in ns && ns[c].name == name && ns[c].parent == n && n != NULL && n in ns
  {
    assert Member(ns, n);
  }

  // A node is reached by one way only.
  lemma {:induction false} OneWay(ns: Nodes, root: nat, a: seq<string>, b: seq<string>)
    requires Inv(ns, root) && Descend(ns, root, a) == Descend(ns, root, b) != NULL
    ensures a == b
    decreases |a|
  {
    hide Inv, Child;
    if a != [] {
      LastName(ns, root, a);
      ChildKnows(ns, root, Descend(ns, root, a[..|a| - 1]), a[|a| - 1]);
    }
    if b != [] {
      LastName(ns, root, b);
      ChildKnows(ns, root, Descend(ns, root, b[..|b| - 1]), b[|b| - 1]);
    }
    RootAlone(ns, root);
    if a != [] && b != [] {
      OneWay(ns, root, a[..|a| - 1], b[..|b| - 1]);
      assert a == a[..|a| - 1] + [a[|a| - 1]] && b == b[..|b| - 1] + [b[|b| - 1]];
    }
  }

  lemma RootAlone(ns: Nodes, root: nat)
    requires Inv(ns, root)
    ensures root in ns && ns[root].parent == NULL && Descend(ns, root, []) == root
  {
  }

  // The way leads somewhere it did not lead before.
  ghost predicate Appears(ns: Nodes, ns': Nodes, root: nat, q: seq<string>) {
    Descend(ns, root, q) == NULL && Descend(ns', root, q) != NULL
  }

  // The tree has grown by one node without children, found under this name at the end of this way.
  ghost predicate OneMore(ns: Nodes, ns': Nodes, root: nat, dir: seq<string>, name: string) {
    && Inv(ns, root) && Inv(ns', root) && Extends(ns, ns') && Descend(ns, root, dir) != NULL
    && (forall m :: Child(ns', Descend(ns', root, dir + [name]), m) == NULL)
    && (forall n, m :: n in ns && NewChildOf(ns, ns', n, m) ==> n == Descend(ns, root, dir) && m == name)
  }

  ghost predicate NewChildOf(ns: Nodes, ns': Nodes, n: nat, m: string) {
    Child(ns, n, m) == NULL && Child(ns', n, m) != NULL
  }

  lemma GrownIsOneMore(ns: Nodes, root: nat, parent: nat, c: nat, name: string, kind: Kind, dir: seq<string>)
    requires Growing(ns, root, parent, c, name) && parent == Descend(ns, root, dir)
    ensures OneMore(ns, Grown(ns, parent, c, name, kind), root, dir, name)
  {
    var ns' := Grown(ns, parent, c, name, kind);
    NewLeaf(ns, root, parent, c, name, kind);
    OnlyNewChild(ns, root, parent, c, name, kind);
    hide Inv, Child, Find, Grown, Descend, Growing, Extends, NewChildOf;
    GrownKeeps(ns, root, parent, c, name, kind);
    GrownExtends(ns, root, parent, c, name, kind);
    RootIsMember(ns, root);
    DescendSame(ns, ns', root, dir);
    DescendOn(ns', root, dir, name);
  }

  lemma OnlyNewChild(ns: Nodes, root: nat, parent: nat, c: nat, name: string, kind: Kind)
    requires Growing(ns, root, parent, c, name)
    ensures forall n, m :: n in ns && NewChildOf(ns, Grown(ns, parent, c, name, kind), n, m) ==> n == parent && m == name
  {
    hide Inv, Grown, Find;
    forall n, m | n in ns && NewChildOf(ns, Grown(ns, parent, c, name, kind), n, m) ensures n == parent && m == name {
      IsMember(ns, root, n);
      OtherChildren(ns, parent, c, name, kind, n, m);
    }
  }

  // The new node is reached by its parent's way and its name, and nothing else is reached now that
  // was not before.
  lemma {:induction false} OneMoreWay(ns: Nodes, ns': Nodes, root: nat, dir: seq<string>, name: string, q: seq<string>)
    requires OneMore(ns, ns', root, dir, name) && Appears(ns, ns', root, q)
    ensures q == dir + [name]
    decreases |q|
  {
    hide Inv, Child, Descend, Extends;
    RootAlone(ns, root);
    RootAlone(ns', root);
    var front, last := q[..|q| - 1], q[|q| - 1];
    assert q == front + [last];
    LastName(ns', root, q);
    if Descend(ns, root, front) == NULL {
      OneMoreWay(ns, ns', root, dir, name, front);
      assert false;
    } else {
      DescendSame(ns, ns', root, front);
      DescendOn(ns, root, front, last);
      DescendIn(ns, root, front);
      assert NewChildOf(ns, ns', Descend(ns, root, front), last);
      OneWay(ns, root, front, dir);
    }
  }

  lemma NewLeaf(ns: Nodes, root: nat, parent: nat, c: nat, name: string, kind: Kind)
    requires Growing(ns, root, parent, c, name)
    ensures parent in ns && parent != c && parent != NULL && Inv(ns, root)
    ensures forall m :: Child(Grown(ns, parent, c, name, kind), c, m) == NULL
  {
    hide Inv;
    RootIsMember(ns, root);
  }

  lemma {:induction false} DescendIn(ns: Nodes, n: nat, parts: seq<string>)
    requires n in ns && Descend(ns, n, parts) != NULL
    ensures Descend(ns, n, parts) in ns
    decreases |parts|
  {
    hide Child;
    if parts != [] && n != NULL {
      var c := Child(ns, n, parts[0]);
      DescendFromNull(ns, parts[1..]);
      assert c != NULL;
      ChildThere(ns, n, parts[0]);
      DescendIn(ns, c, parts[1..]);
    }
  }

  // Only the parent has a child it had not before, and only under the new name.
  lemma OtherChildren(ns: Nodes, parent: nat, c: nat, name: string, kind: Kind, n: nat, m: string)
    requires parent in ns && c !in ns && n in ns && (forall i :: 0 <= i < |ns[n].children| ==> ns[n].children[i] in ns)
    requires NewChildOf(ns, Grown(ns, parent, c, name, kind), n, m)
    ensures n == parent && m == name
  {
    var ns' := Grown(ns, parent, c, name, kind);
    FindSame(ns, ns', ns[n].children, m);
    if n == parent {
      assert ns'[n].children[1..] == ns[n].children;
    }
  }

  // Everything that is reached now and was not before lies on the way p, and is a directory.
  ghost predicate OnlyDirs(ns: Nodes, ns': Nodes, root: nat, p: seq<string>) {
    forall q :: Appears(ns, ns', root, q) ==> q <= p && DirAt(ns', root, q)
  }

  predicate DirAt(ns: Nodes, root: nat, q: seq<string>) {
    Descend(ns, root, q) != NULL && Descend(ns, root, q) in ns && ns[Descend(ns, root, q)].kind.Dir?
  }

  lemma OnlyDirsThen(a: Nodes, b: Nodes, c: Nodes, root: nat, p: seq<string>, r: seq<string>)
    requires root in a && Extends(a, b) && Extends(b, c) && OnlyDirs(a, b, root, p) && OnlyDirs(b, c, root, r) && p <= r
    ensures OnlyDirs(a, c, root, r)
  {
    hide Descend, Child;
    assert Same(a, b, root);
    forall q | Appears(a, c, root, q) ensures q <= r && DirAt(c, root, q) {
      if Descend(b, root, q) == NULL {
        assert Appears(b, c, root, q);
      } else {
        assert Appears(a, b, root, q);
        KindStays(b, c, root, q);
      }
    }
  }

  // What is reached keeps its kind.
  lemma KindStays(ns: Nodes, ns': Nodes, root: nat, q: seq<string>)
    requires Extends(ns, ns') && Descend(ns, root, q) != NULL && Descend(ns, root, q) in ns
    requires root in ns
    ensures Descend(ns', root, q) == Descend(ns, root, q)
    ensures Descend(ns, root, q) in ns' && ns'[Descend(ns, root, q)].kind == ns[Descend(ns, root, q)].kind
  {
    hide Child, Descend;
    DescendSame(ns, ns', root, q);
    assert Same(ns, ns', Descend(ns, root, q));
  }

  // ---- the archive ----

  // A header's type flag, its prefix and name put together, its link name, and where its data lies.
  datatype Entry = Entry(flag: char, path: string, link: string, content: nat)

  function StripEnd(p: string): string {
    if p != "" && p[|p| - 1] == '/' then StripEnd(p[..|p| - 1]) else p
  }

  function StripDots(p: string): string {
    if |p| >= 2 && p[0] == '.' && p[1] == '/' then StripDots(p[2..]) else p
  }

  function StripStart(p: string): string {
    if p != "" && p[0] == '/' then StripStart(p[1..]) else p
  }

  // tarfs_strip
  function Strip(p: string): string {
    StripStart(StripDots(StripEnd(p)))
  }

  // Just behind the last slash.
  function Split(p: string): (k: nat)
    ensures k <= |p| && (k > 0 ==> p[k - 1] == '/') && forall i :: k <= i < |p| ==> p[i] != '/'
  {
    if p == "" || p[|p| - 1] == '/' then |p| else Split(p[..|p| - 1])
  }

  function EntryParts(p: string): seq<string> {
    Parts(if Split(p) > 0 then p[..Split(p) - 1] else "") + [p[Split(p)..]]
  }

  function PathOf(e: Entry): seq<string> {
    EntryParts(Strip(e.path))
  }

  // An entry of a kind that is looked at, with a name.
  predicate Named(e: Entry) {
    (e.flag == '\0' || e.flag == '0' || e.flag == '1' || e.flag == '2' || e.flag == '5') && Split(Strip(e.path)) < |Strip(e.path)|
  }

  // A file, a symbolic link or a directory with a name.
  predicate Wanted(e: Entry) {
    Named(e) && e.flag != '1'
  }

  function Makes(e: Entry): Kind {
    if e.flag == '5' then Dir else if e.flag == '2' then Link(e.link) else File(e.content)
  }

  // The entry names this way or one beyond it.
  predicate Names(e: Entry, q: seq<string>) {
    Named(e) && q <= PathOf(e)
  }

  // The first of the first n entries that does so; n if there is none.
  function First(entries: seq<Entry>, n: nat, q: seq<string>): (j: nat)
    requires n <= |entries|
    ensures j <= n
  {
    if n == 0 then 0
    else
      var j := First(entries, n - 1, q);
      if j < n - 1 || Names(entries[n - 1], q) then j else n
  }

  lemma {:induction false} FirstNames(entries: seq<Entry>, n: nat, q: seq<string>)
    requires n <= |entries|
    ensures var j := First(entries, n, q);
            (j < n ==> Names(entries[j], q)) && forall i :: 0 <= i < j ==> !Names(entries[i], q)
  {
    hide Names;
    if n > 0 {
      FirstNames(entries, n - 1, q);
    }
  }

  // What the first n entries make of a way that led nowhere: the first entry that names it or goes
  // beyond it decides. What a hard link makes depends on the tree it is met with.
  ghost predicate Decided(ns: Nodes, root: nat, entries: seq<Entry>, n: nat, q: seq<string>)
    requires n <= |entries|
  {
    var j := First(entries, n, q);
    if j == n then Descend(ns, root, q) == NULL
    else if q != PathOf(entries[j]) then DirAt(ns, root, q)
    else entries[j].flag != '1' ==> KindAt(ns, root, q, Makes(entries[j]))
  }

  predicate KindAt(ns: Nodes, root: nat, q: seq<string>, kind: Kind) {
    Descend(ns, root, q) != NULL && Descend(ns, root, q) in ns && ns[Descend(ns, root, q)].kind == kind
  }

  ghost predicate Mounted(was: Nodes, ns: Nodes, root: nat, entries: seq<Entry>, n: nat)
    requires n <= |entries|
  {
    forall q :: Descend(was, root, q) == NULL ==> Decided(ns, root, entries, n, q)
  }

  // What one entry adds: directories on its way, and what it makes at its end.
  ghost predicate Entered(ns: Nodes, ns': Nodes, root: nat, e: Entry) {
    var p := PathOf(e);
    && (forall q :: Appears(ns, ns', root, q) ==>
          Named(e) && q <= p && (if q != p then DirAt(ns', root, q) else e.flag != '1' ==> KindAt(ns', root, q, Makes(e))))
    && (Named(e) ==> forall q :: q <= p && (q != p || e.flag != '1') ==> Descend(ns', root, q) != NULL)
  }

  class Mount {
    var nodes: Nodes
    const root: nat
    // The number of the node made next.
    var next: nat

    ghost predicate Valid()
      reads this
    {
      Inv(nodes, root) && forall n :: n in nodes ==> n < next
    }

    constructor ()
      ensures Valid() && nodes == map[root := Node("", Dir, NULL, [])]
    {
      root := 1;
      next := 2;
      nodes := map[1 := Node("", Dir, NULL, [])];
    }

    method FindChild(n: nat, name: string) returns (c: nat)
      requires Valid() && n in nodes
      ensures c == Child(nodes, n, name)
    {
      var cs := nodes[n].children;
      var i := 0;
      assert Member(nodes, n);
      assert cs[0..] == cs;
      while i < |cs|
        invariant i <= |cs| && Find(nodes, cs[i..], name) == Child(nodes, n, name)
      {
        assert Member(nodes, cs[i]) && cs[i..][1..] == cs[i + 1..];
        if nodes[cs[i]].name == name {
          return cs[i];
        }
        i := i + 1;
      }
      return NULL;
    }

    method AddChild(parent: nat, name: string, kind: Kind, ghost dir: seq<string>) returns (c: nat)
      requires Valid() && parent in nodes && Child(nodes, parent, name) == NULL && parent == Descend(nodes, root, dir)
      modifies this
      ensures Valid() && Extends(old(nodes), nodes) && c in nodes
      ensures c == Child(nodes, parent, name) != NULL && nodes[c].kind == kind
      ensures OneMore(old(nodes), nodes, root, dir, name)
    {
      hide Inv, Extends, Child, OneMore, Descend;
      c := next;
      NextIsFresh();
      GrownIsOneMore(nodes, root, parent, c, name, kind, dir);
      GrownExtends(nodes, root, parent, c, name, kind);
      GrownKeeps(nodes, root, parent, c, name, kind);
      nodes := nodes[parent := nodes[parent].(children := [c] + nodes[parent].children)][c := Node(name, kind, parent, [])];
      next := next + 1;
    }

    lemma NextIsFresh()
      requires Valid()
      ensures next != NULL
    {
    }

    // tarfs_resolve_dir_path
    method ResolveDirPath(path: string) returns (cur: nat)
      requires Valid()
      modifies this
      ensures Valid() && Extends(old(nodes), nodes) && cur in nodes
      ensures cur == Descend(nodes, root, Parts(path)) != NULL
      ensures OnlyDirs(old(nodes), nodes, root, Parts(path))
    {
      hide Inv, Extends, Child, Parts, Descend, OnlyDirs;
      NothingAppears(nodes, root, []);
      cur := root;
      RootIsMember(nodes, root);
      ExtendsItself(nodes);
      DescendNowhere(nodes, root);
      ghost var done := [];
      var i := 0;
      assert path[0..] == path;
      while i < |path|
        invariant i <= |path| && Valid() && Extends(old(nodes), nodes)
        invariant cur in nodes && cur == Descend(nodes, root, done) != NULL
        invariant OnlyDirs(old(nodes), nodes, root, done)
        invariant done + Parts(path[i..]) == Parts(path)
        decreases |path| - i
      {
        var start := i;
        i := ScanPart(path, start);
        OnePart(path, start, i);
        if i != start {
          ghost var before := nodes;
          cur := EnterPart(cur, path[start..i], done);
          OnlyDirsThen(old(nodes), before, nodes, root, done, done + [path[start..i]]);
          ExtendsThen(old(nodes), before, nodes);
          done := done + [path[start..i]];
        }
        if i < |path| {
          i := i + 1;
        }
      }
      NoParts();
      assert path[i..] == "" && done + [] == done;
    }

    static method ScanPart(path: string, start: nat) returns (i: nat)
      requires start <= |path|
      ensures start <= i <= |path| && (forall j :: start <= j < i ==> path[j] != '/') && (i < |path| ==> path[i] == '/')
    {
      i := start;
      while i < |path| && path[i] != '/'
        invariant start <= i <= |path| && forall j :: start <= j < i ==> path[j] != '/'
      {
        i := i + 1;
      }
    }

    // The child with this name, made if there is none.
    method EnterPart(cur: nat, name: string, ghost done: seq<string>) returns (child: nat)
      requires Valid() && cur in nodes && cur == Descend(nodes, root, done) != NULL
      modifies this
      ensures Valid() && Extends(old(nodes), nodes) && child in nodes
      ensures child == Descend(nodes, root, done + [name]) != NULL
      ensures OnlyDirs(old(nodes), nodes, root, done + [name])
    {
      hide Inv, Extends, Child, Descend, OneMore, OnlyDirs;
      RootIsMember(nodes, root);
      ExtendsItself(nodes);
      NothingAppears(nodes, root, done + [name]);
      child := FindChild(cur, name);
      if child == NULL {
        ghost var before := nodes;
        child := AddChild(cur, name, Dir, done);
        DescendSame(before, nodes, root, done);
        DescendOn(nodes, root, done, name);
        OneDir(before, nodes, root, done, name);
      }
      DescendOn(nodes, root, done, name);
      ChildThere(nodes, cur, name);
      RootIsMember(nodes, root);
    }

    // tarfs_follow
    method FollowLink(n: nat, depth: nat) returns (r: nat)
      requires Valid() && (n == NULL || Below(nodes, n)) && depth <= MAX_SYMLINK_DEPTH
      ensures r == Follow(nodes, n, depth)
      decreases MAX_SYMLINK_DEPTH - depth, 0
    {
      hide Walk, Inv, Find, Parts, Top;
      RootIsMember(nodes, root);
      if n == NULL || !nodes[n].kind.Link? {
        return n;
      }
      if depth >= MAX_SYMLINK_DEPTH {
        return NULL;
      }
      LinkInDir(nodes, root, n);
      r := WalkPath(nodes[n].parent, nodes[n].kind.target, depth + 1);
    }

    // tarfs_walk
    method WalkPath(start: nat, path: string, depth: nat) returns (r: nat)
      requires Valid() && Landing(nodes, start) && depth <= MAX_SYMLINK_DEPTH
      ensures r == Walk(nodes, start, path, depth)
      decreases MAX_SYMLINK_DEPTH - depth, 2
    {
      hide Inv, Find, Follow, Child, Parts, Below, Steps;
      var cur := start;
      BelowIn(nodes, start);
      RootIsMember(nodes, root);
      if path != "" && path[0] == '/' {
        cur := Climb(start);
        TopLands(nodes, root, start);
      }
      var i := 0;
      assert path[0..] == path;
      while i < |path|
        invariant i <= |path| && Landing(nodes, cur)
        invariant Steps(nodes, cur, Parts(path[i..]), depth) == Walk(nodes, start, path, depth)
        decreases |path| - i
      {
        var s := i;
        i := ScanPart(path, s);
        OnePart(path, s, i);
        ghost var rest := Parts(if i < |path| then path[i + 1..] else path[i..]);
        assert [] + rest == rest;
        if i != s {
          FirstStep(nodes, cur, path[s..i], rest, depth);
          cur := Step(cur, path[s..i], depth);
          if cur == NULL {
            return NULL;
          }
        }
        if i < |path| {
          i := i + 1;
        }
      }
      assert path[i..] == "";
      NoMoreSteps(nodes, cur, depth);
      return cur;
    }

    // One name of a path.
    method Step(cur: nat, part: string, depth: nat) returns (r: nat)
      requires Valid() && Landing(nodes, cur) && depth <= MAX_SYMLINK_DEPTH
      ensures r == Steps(nodes, cur, [part], depth)
      ensures r != NULL ==> Landing(nodes, r)
      decreases MAX_SYMLINK_DEPTH - depth, 1
    {
      hide Inv, Find, Follow, Child, Parts, Below;
      ParentLands(nodes, root, cur);
      StepsLand(nodes, root, cur, [part], depth);
      if !nodes[cur].kind.Dir? {
        return NULL;
      }
      if part == "." {
        return cur;
      }
      if part == ".." {
        return if nodes[cur].parent != NULL then nodes[cur].parent else cur;
      }
      var child := FindChild(cur, part);
      if child != NULL {
        ChildBelow(nodes, root, cur, part);
      }
      r := FollowLink(child, depth);
    }

    method Climb(n: nat) returns (top: nat)
      requires Valid() && n in nodes
      ensures top == Top(nodes, n)
    {
      top := n;
      while nodes[top].parent != NULL
        invariant top in nodes && Top(nodes, top) == Top(nodes, n)
        decreases top
      {
        assert Member(nodes, top);
        top := nodes[top].parent;
      }
    }

    // tarfs_add_entry: what the entry makes under this name, if anything.
    method AddEntry(parent: nat, base: string, e: Entry, ghost dir: seq<string>) returns (n: nat)
      requires Valid() && parent in nodes && Child(nodes, parent, base) == NULL && parent == Descend(nodes, root, dir)
      modifies this
      ensures Valid() && Extends(old(nodes), nodes) && n == Child(nodes, parent, base)
      ensures nodes == old(nodes) || OneMore(old(nodes), nodes, root, dir, base)
      ensures var t := Walk(old(nodes), root, Strip(e.link), 0);
              var made := if e.flag != '1' then Makes(e)
                          else if t != NULL && t in old(nodes) then old(nodes)[t].kind else Dir;
              if e.flag == '1' && (t == NULL || made.Dir?) then n == NULL && nodes == old(nodes)
              else n in nodes && nodes[n].kind == made && !(e.flag == '1' && !made.File?)
    {
      hide Inv, Extends, Child, Walk, Parts, Below, OneMore, Descend;
      n := NULL;
      ExtendsItself(nodes);
      RootLands(nodes, root);
      match e.flag {
        case '5' => n := AddChild(parent, base, Dir, dir);
        case '2' => n := AddChild(parent, base, Link(e.link), dir);
        case '1' =>
          WalkLands(nodes, root, root, Strip(e.link), 0);
          var t := WalkPath(root, Strip(e.link), 0);
          if t != NULL {
            BelowIn(nodes, t);
            if !nodes[t].kind.Dir? {
              n := AddChild(parent, base, nodes[t].kind, dir);
            }
          }
        case _ => n := AddChild(parent, base, File(e.content), dir);
      }
    }

    // tarfs_parse_archive over the entries of a mounted archive
    method ParseArchive(entries: seq<Entry>)
      requires Valid()
      modifies this
      ensures Valid() && Extends(old(nodes), nodes)
      ensures Mounted(old(nodes), nodes, root, entries, |entries|)
    {
      hide Inv, Extends, Child, Descend, Parts, Strip, Split, Mounted, Entered;
      ExtendsItself(nodes);
      MountedNothing(nodes, root, entries);
      var i := 0;
      while i < |entries|
        invariant i <= |entries| && Valid() && Extends(old(nodes), nodes)
        invariant Mounted(old(nodes), nodes, root, entries, i)
      {
        ghost var before := nodes;
        ParseEntry(entries[i]);
        RootIsMember(before, root);
        ExtendsThen(old(nodes), before, nodes);
        MountedMore(old(nodes), before, nodes, root, entries, i);
        i := i + 1;
      }
    }

    method ParseEntry(e: Entry)
      requires Valid()
      modifies this
      ensures Valid() && Extends(old(nodes), nodes)
      ensures Entered(old(nodes), nodes, root, e)
    {
      hide Inv, Extends, Child, Descend, Parts, Strip, Walk, Entered, OnlyDirs, OneMore, Makes;
      ExtendsItself(nodes);
      if e.flag == '\0' || e.flag == '0' || e.flag == '1' || e.flag == '2' || e.flag == '5' {
        var p := Strip(e.path);
        var split: nat := |p|;
        while split > 0 && p[split - 1] != '/'
          modifies {}
          invariant split <= |p| && forall k :: split <= k < |p| ==> p[k] != '/'
        {
          split := split - 1;
        }
        SplitIs(p, split);
        if |p| > split {
          ghost var before := nodes;
          ghost var dir := Parts(if split > 0 then p[..split - 1] else "");
          var parent := ResolveDirPath(if split > 0 then p[..split - 1] else "");
          ghost var between := nodes;
          RootIsMember(before, root);
          RootIsMember(between, root);
          var n := FindChild(parent, p[split..]);
          if n == NULL {
            n := AddEntry(parent, p[split..], e, dir);
            ExtendsThen(before, between, nodes);
            DescendSame(between, nodes, root, dir);
          } else {
            ExtendsItself(nodes);
          }
          RootIsMember(nodes, root);
          DescendOn(nodes, root, dir, p[split..]);
          EntryEntered(before, between, nodes, root, e, dir, p[split..]);
          return;
        }
      }
      NothingEntered(nodes, root, e);
    }
  }

  // tarfs_mount
  method MountArchive(entries: seq<Entry>) returns (m: Mount)
    ensures fresh(m) && m.Valid()
    ensures forall q :: q != [] ==> Decided(m.nodes, m.root, entries, |entries|, q)
  {
    m := new Mount();
    ghost var ns := m.nodes;
    m.ParseArchive(entries);
    forall q | q != [] ensures Decided(m.nodes, m.root, entries, |entries|, q) {
      assert Child(ns, m.root, q[0]) == NULL;
      DescendFromNull(ns, q[1..]);
    }
  }

  // The archive makes a directory of this way: some entry goes beyond it, or is one, before others name it.
  predicate MakesDir(entries: seq<Entry>, q: seq<string>) {
    var j := First(entries, |entries|, q);
    j < |entries| && (q != PathOf(entries[j]) || entries[j].flag == '5')
  }

  // Entry i is the first to name its path, a file's or a directory's, and its path leads through directories.
  predicate Plain(entries: seq<Entry>, i: nat)
    requires i < |entries|
  {
    var q := PathOf(entries[i]);
    && Wanted(entries[i]) && entries[i].flag != '2' && First(entries, |entries|, q) == i
    && (forall k :: 0 <= k < |q| ==> q[k] != "." && q[k] != "..")
    && (forall k :: 0 < k < |q| ==> MakesDir(entries, q[..k]))
  }

  // Opening such an entry's path in a mounted archive finds what the entry holds.
  lemma EntryFound(ns: Nodes, root: nat, entries: seq<Entry>, i: nat)
    requires Inv(ns, root) && i < |entries| && Plain(entries, i)
    requires forall q :: q != [] ==> Decided(ns, root, entries, |entries|, q)
    ensures var n := Walk(ns, root, Strip(entries[i].path), 0); n in ns && ns[n].kind == Makes(entries[i])
  {
    hide Strip, Split, Parts, Inv, Descend, First, Makes, Walk, DirAt, KindAt;
    var path, q := Strip(entries[i].path), PathOf(entries[i]);
    PartsOfEntry(path);
    assert Decided(ns, root, entries, |entries|, q);
    RootIsDir(ns, root);
    forall k | 0 <= k < |q| ensures DirAt(ns, root, q[..k]) {
      if k > 0 {
        assert MakesDir(entries, q[..k]) && Decided(ns, root, entries, |entries|, q[..k]);
        MadeDir(ns, root, entries, q[..k]);
      }
    }
    NoLinkMade(entries[i]);
    WayFound(ns, root, path, Makes(entries[i]));
  }

  lemma RootIsDir(ns: Nodes, root: nat)
    requires Inv(ns, root)
    ensures DirAt(ns, root, [])
  {
    RootIsMember(ns, root);
  }

  lemma MadeDir(ns: Nodes, root: nat, entries: seq<Entry>, q: seq<string>)
    requires MakesDir(entries, q) && Decided(ns, root, entries, |entries|, q)
    ensures DirAt(ns, root, q)
  {
    hide First, Descend, PathOf;
  }

  lemma NoLinkMade(e: Entry)
    requires e.flag != '2'
    ensures !Makes(e).Link?
  {
  }

  // A path whose names lead through directories.
  lemma WayFound(ns: Nodes, root: nat, path: string, kind: Kind)
    requires Inv(ns, root) && KindAt(ns, root, Parts(path), kind) && !kind.Link?
    requires var q := Parts(path); forall k :: 0 <= k < |q| ==> DirAt(ns, root, q[..k]) && q[k] != "." && q[k] != ".."
    ensures var n := Walk(ns, root, path, 0); n in ns && ns[n].kind == kind
  {
    RootIsMember(ns, root);
    TopLands(ns, root, root);
    hide Inv, Parts, Top, Steps, Descend, Straight, DirAt;
    var q := Parts(path);
    assert [] + q == q;
    forall k | 0 <= k < |q| ensures DirAt(ns, root, [] + q[..k]) && q[k] != "." && q[k] != ".." {
      assert [] + q[..k] == q[..k];
    }
    StraightOn(ns, root, [], q);
    DescendNowhere(ns, root);
    WalkIsDescent(ns, root, q, 0);
  }

  lemma {:induction false} StraightOn(ns: Nodes, root: nat, done: seq<string>, rest: seq<string>)
    requires forall k :: 0 <= k < |rest| ==> DirAt(ns, root, done + rest[..k]) && rest[k] != "." && rest[k] != ".."
    requires var n := Descend(ns, root, done + rest); n != NULL && n in ns && !ns[n].kind.Link?
    ensures Straight(ns, Descend(ns, root, done), rest)
    decreases |rest|
  {
    hide Descend, Child;
    if rest == [] {
      assert done + rest == done;
    } else {
      assert done + rest[..0] == done;
      var on := done + [rest[0]];
      assert on + rest[1..] == done + rest;
      forall k | 0 <= k < |rest[1..]| ensures DirAt(ns, root, on + rest[1..][..k]) && rest[1..][k] != "." && rest[1..][k] != ".." {
        assert on + rest[1..][..k] == done + rest[..k + 1];
        assert rest[1..][k] == rest[k + 1];
      }
      StraightOn(ns, root, on, rest[1..]);
      DescendOn(ns, root, done, rest[0]);
      assert DirAt(ns, root, done + rest[..0]);
    }
  }

  // The way an entry names is its path's names.
  lemma PartsOfEntry(p: string)
    requires Split(p) < |p|
    ensures Parts(p) == EntryParts(p)
  {
    hide Parts, Split;
    PartsSplit(p, Split(p));
  }

  lemma PartsSplit(p: string, k: nat)
    requires k < |p| && (k > 0 ==> p[k - 1] == '/') && forall i :: k <= i < |p| ==> p[i] != '/'
    ensures Parts(p) == Parts(if k > 0 then p[..k - 1] else "") + [p[k..]]
  {
    hide Parts;
    var b := p[k..];
    assert forall i :: 0 <= i < |b| ==> b[i] == p[k + i];
    if k == 0 {
      assert b == p;
      NoParts();
      OneName(p);
      assert [] + [p] == [p];
    } else {
      assert p == p[..k - 1] + "/" + b;
      PartsEnd(p[..k - 1], b);
    }
  }

  lemma OneName(b: string)
    requires b != "" && forall i :: 0 <= i < |b| ==> b[i] != '/'
    ensures Parts(b) == [b]
  {
    UptoIs(b, |b|);
    assert b[..|b|] == b && b[|b|..] == "" && [b] + [] == [b];
  }

  lemma {:induction false} PartsEnd(d: string, b: string)
    requires b != "" && forall i :: 0 <= i < |b| ==> b[i] != '/'
    ensures Parts(d + "/" + b) == Parts(d) + [b]
    decreases |d|
  {
    var p := d + "/" + b;
    if d == "" {
      assert p[0] == '/' && p[1..] == b && Upto(p) == 0;
      OneName(b);
    } else {
      var k := Upto(d);
      UptoIs(p, k);
      CutFront(d, b, k);
      CutFront(d, b, 1);
      if k == 0 {
        PartsEnd(d[1..], b);
      } else {
        PartsEnd(d[k..], b);
        assert [d[..k]] + (Parts(d[k..]) + [b]) == [d[..k]] + Parts(d[k..]) + [b];
      }
    }
  }

  lemma CutFront(d: string, b: string, k: nat)
    requires k <= |d|
    ensures (d + "/" + b)[..k] == d[..k] && (d + "/" + b)[k..] == d[k..] + "/" + b
  {
  }

  lemma NothingAppears(ns: Nodes, root: nat, p: seq<string>)
    ensures OnlyDirs(ns, ns, root, p)
  {
  }

  lemma OneDir(ns: Nodes, ns': Nodes, root: nat, dir: seq<string>, name: string)
    requires OneMore(ns, ns', root, dir, name) && KindAt(ns', root, dir + [name], Dir)
    ensures OnlyDirs(ns, ns', root, dir + [name])
  {
    hide OneMore, Descend;
    forall q | Appears(ns, ns', root, q) ensures q <= dir + [name] && DirAt(ns', root, q) {
      OneMoreWay(ns, ns', root, dir, name, q);
    }
  }

  lemma NothingEntered(ns: Nodes, root: nat, e: Entry)
    requires !Named(e)
    ensures Entered(ns, ns, root, e)
  {
  }

  // The directories on the way first, the entry at its end afterwards.
  lemma EntryEntered(a: Nodes, b: Nodes, c: Nodes, root: nat, e: Entry, dir: seq<string>, base: string)
    requires Named(e) && PathOf(e) == dir + [base] && root in a && root in b
    requires Extends(a, b) && Extends(b, c) && OnlyDirs(a, b, root, dir)
    requires b == c || OneMore(b, c, root, dir, base)
    requires Descend(c, root, dir) != NULL
    requires e.flag != '1' ==> Descend(c, root, dir + [base]) != NULL
    requires e.flag != '1' && b != c ==> KindAt(c, root, dir + [base], Makes(e))
    ensures Entered(a, c, root, e)
  {
    hide Extends, Descend, OneMore, Makes, Named, PathOf;
    forall q | Appears(a, c, root, q)
      ensures q <= dir + [base] && (if q != dir + [base] then DirAt(c, root, q) else e.flag != '1' ==> KindAt(c, root, q, Makes(e)))
    {
      if Appears(b, c, root, q) {
        OneMoreWay(b, c, root, dir, base, q);
      } else {
        assert Appears(a, b, root, q);
        KindStays(b, c, root, q);
      }
    }
    forall q | q <= dir + [base] && (q != dir + [base] || e.flag != '1') ensures Descend(c, root, q) != NULL {
      if q != dir + [base] {
        assert q + dir[|q|..] == dir;
        DescendPrefix(c, root, q, dir[|q|..]);
      }
    }
  }

  lemma MountedNothing(ns: Nodes, root: nat, entries: seq<Entry>)
    ensures Mounted(ns, ns, root, entries, 0)
  {
  }

  // One more entry.
  lemma MountedMore(was: Nodes, ns: Nodes, ns': Nodes, root: nat, entries: seq<Entry>, n: nat)
    requires n < |entries| && root in ns && Extends(ns, ns')
    requires Mounted(was, ns, root, entries, n) && Entered(ns, ns', root, entries[n])
    ensures Mounted(was, ns', root, entries, n + 1)
  {
    hide Extends, Descend, Named, PathOf, Makes;
    forall q | Descend(was, root, q) == NULL ensures Decided(ns', root, entries, n + 1, q) {
      assert Decided(ns, root, entries, n, q);
      var j := First(entries, n, q);
      if j < n {
        if Descend(ns, root, q) != NULL && Descend(ns, root, q) in ns {
          KindStays(ns, ns', root, q);
        }
      } else if Descend(ns', root, q) != NULL {
        assert Appears(ns, ns', root, q);
      }
    }
  }

  lemma {:induction false} SplitIs(p: string, k: nat)
    requires k <= |p| && (k > 0 ==> p[k - 1] == '/') && forall i :: k <= i < |p| ==> p[i] != '/'
    ensures Split(p) == k
  {
  }

  lemma RootLands(ns: Nodes, root: nat)
    requires Inv(ns, root)
    ensures Landing(ns, root)
  {
  }

  lemma BelowIn(ns: Nodes, n: nat)
    requires Landing(ns, n)
    ensures n in ns && !ns[n].kind.Link?
  {
  }

  lemma LinkInDir(ns: Nodes, root: nat, n: nat)
    requires Inv(ns, root) && Below(ns, n) && ns[n].kind.Link?
    ensures Landing(ns, ns[n].parent)
  {
  }

  lemma NoMoreSteps(ns: Nodes, cur: nat, depth: nat)
    requires depth <= MAX_SYMLINK_DEPTH
    ensures Steps(ns, cur, Parts(""), depth) == cur
  {
  }

  lemma FirstStep(ns: Nodes, cur: nat, part: string, rest: seq<string>, depth: nat)
    requires depth <= MAX_SYMLINK_DEPTH && NULL !in ns
    ensures var r := Steps(ns, cur, [part], depth);
            Steps(ns, cur, [part] + rest, depth) == if r == NULL then NULL else Steps(ns, r, rest, depth)
  {
    hide Follow, Child;
    assert ([part] + rest)[1..] == rest && [part][1..] == [];
  }

  lemma NoParts()
    ensures Parts("") == []
  {
  }

  lemma DescendNowhere(ns: Nodes, n: nat)
    ensures Descend(ns, n, []) == n
  {
  }

  lemma RootIsMember(ns: Nodes, root: nat)
    requires Inv(ns, root)
    ensures root in ns && NULL !in ns
  {
    assert Member(ns, root) && (NULL in ns ==> Member(ns, NULL));
  }

  lemma ChildThere(ns: Nodes, n: nat, name: string)
    requires Child(ns, n, name) != NULL
    ensures Child(ns, n, name) in ns
  {
  }

  lemma ExtendsItself(ns: Nodes)
    ensures Extends(ns, ns)
  {
  }

  lemma ExtendsThen(a: Nodes, b: Nodes, c: Nodes)
    requires Extends(a, b) && Extends(b, c)
    ensures Extends(a, c)
  {
    hide Child;
    forall n | n in a ensures Same(a, c, n) {
      assert Same(a, b, n) && Same(b, c, n);
    }
  }

  // The scan from `start` that stops at i has found one part, or a slash too many.
  lemma OnePart(path: string, start: nat, i: nat)
    requires start <= i <= |path| && start < |path| && (forall j :: start <= j < i ==> path[j] != '/')
    requires i < |path| ==> path[i] == '/'
    ensures var rest := if i < |path| then path[i + 1..] else path[i..];
            Parts(path[start..]) == (if i == start then [] else [path[start..i]]) + Parts(rest)
  {
    var p := path[start..];
    UptoIs(p, i - start);
    assert p[..i - start] == path[start..i] && p[i - start..] == path[i..];
    if i < |path| && i > start {
      assert Upto(path[i..]) == 0 && path[i..][1..] == path[i + 1..];
    }
  }

  lemma {:induction false} UptoIs(p: string, k: nat)
    requires k <= |p| && (forall i :: 0 <= i < k ==> p[i] != '/') && (k < |p| ==> p[k] == '/')
    ensures Upto(p) == k
  {
  }
}
