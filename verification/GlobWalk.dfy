/** The directory walk of antglob.py: an explicit stack against a recursive traversal. */
module GlobWalk {

  // ---------- trees, names and filters ----------

  // A tree without links; `Other` is neither a regular file nor a directory.
  datatype Node = File | Other | Directory(listing: Listing)
  datatype Listing = Nothing | Entry(name: string, node: Node, rest: Listing)

  const DIR: bv4 := 1
  const FILE: bv4 := 2

  datatype Query = Query(
    includes: seq<string -> bool>, excludes: seq<string -> bool>, prunes: seq<string -> bool>, types: bv4)

  predicate AnyMatch(filters: seq<string -> bool>, s: string) {
    exists i :: 0 <= i < |filters| && filters[i](s)
  }

  // os.path.join for a name without a slash.
  function Join(dir: string, name: string): string { Base(dir) + name }

  function Base(dir: string): string {
    if dir == "" || dir[|dir| - 1] == '/' then dir else dir + "/"
  }

  predicate IsName(s: string) { s != "" && forall i :: 0 <= i < |s| ==> s[i] != '/' }

  predicate NotNamed(listing: Listing, name: string) {
    match listing
    case Nothing => true
    case Entry(other, _, rest) => other != name && NotNamed(rest, name)
  }

  // Every name is a name, and no two entries of a directory share one.
  predicate WellNamed(listing: Listing) {
    match listing
    case Nothing => true
    case Entry(name, node, rest) =>
      IsName(name) && NotNamed(rest, name) && WellNamed(rest) && (node.Directory? ==> WellNamed(node.listing))
  }

  predicate TypeWanted(q: Query, node: Node) {
    match node
    case File => FILE & q.types != 0
    case Directory(_) => DIR & q.types != 0
    case Other => false
  }

  predicate Passes(q: Query, path: string, node: Node) {
    AnyMatch(q.includes, path) && !AnyMatch(q.excludes, path) && TypeWanted(q, node)
  }

  // ---------- the recursive traversal ----------

  function Own(q: Query, path: string, node: Node): multiset<string> {
    if Passes(q, path, node) then multiset{path} else multiset{}
  }

  function Below(q: Query, dir: string, name: string, node: Node): multiset<string>
    decreases node, 0
  {
    if node.Directory? && !AnyMatch(q.prunes, name) then Walk(q, Join(dir, name), node.listing) else multiset{}
  }

  function Walk(q: Query, dir: string, listing: Listing): multiset<string>
    decreases listing, 1
  {
    match listing
    case Nothing => multiset{}
    case Entry(name, node, rest) =>
      Own(q, Join(dir, name), node) + Below(q, dir, name, node) + Walk(q, dir, rest)
  }

  // ---------- the walk with a stack ----------

  datatype Pending = Pending(dir: string, listing: Listing)

  function StackWalk(q: Query, stack: seq<Pending>): multiset<string> {
    if stack == [] then multiset{}
    else StackWalk(q, stack[..|stack| - 1]) + Walk(q, stack[|stack| - 1].dir, stack[|stack| - 1].listing)
  }

  function NodeSize(node: Node): nat { if node.Directory? then 1 + Size(node.listing) else 0 }

  function Size(listing: Listing): nat {
    match listing
    case Nothing => 1
    case Entry(_, node, rest) => 1 + NodeSize(node) + Size(rest)
  }

  function StackSize(stack: seq<Pending>): nat {
    if stack == [] then 0 else StackSize(stack[..|stack| - 1]) + 1 + Size(stack[|stack| - 1].listing)
  }

  method ApplyFilter(path: string, filters: seq<string -> bool>) returns (matched: bool)
    ensures matched == AnyMatch(filters, path)
  {
    var i := 0;
    while i < |filters|
      invariant i <= |filters| && forall k :: 0 <= k < i ==> !filters[k](path)
    {
      if filters[i](path) {
        return true;
      }
      i := i + 1;
    }
    return false;
  }

  // One entry: what is pushed and what is kept.
  method Visit(q: Query, dir: string, name: string, node: Node, stack: seq<Pending>, kept: seq<string>)
    returns (stack': seq<Pending>, kept': seq<string>)
    ensures multiset(kept') + StackWalk(q, stack') ==
            multiset(kept) + StackWalk(q, stack) + (Own(q, Join(dir, name), node) + Below(q, dir, name, node))
    ensures StackSize(stack') <= StackSize(stack) + NodeSize(node)
  {
    stack', kept' := stack, kept;
    var fullPath := Join(dir, name);
    var pruned := ApplyFilter(name, q.prunes);
    if node.Directory? && !pruned {
      stack' := stack + [Pending(fullPath, node.listing)];
      assert stack'[..|stack'| - 1] == stack;
    }
    assert StackWalk(q, stack') == StackWalk(q, stack) + Below(q, dir, name, node);
    var included := ApplyFilter(fullPath, q.includes);
    var rejected := ApplyFilter(fullPath, q.excludes);
    if !included || rejected {
      return;
    }
    if node.Other? {
      return;
    }
    var entryType := if node.File? then FILE else DIR;
    if entryType & q.types != 0 {
      kept' := kept + [fullPath];
    }
  }

  /** The explicit stack finds what the recursion finds, each as often, and terminates. */
  method GlobImpl(q: Query, root: string, tree: Listing) returns (kept: seq<string>)
    ensures multiset(kept) == Walk(q, root, tree)
  {
    kept := [];
    var childDirs := [Pending(root, tree)];
    while childDirs != []
      invariant multiset(kept) + StackWalk(q, childDirs) == Walk(q, root, tree)
      decreases StackSize(childDirs)
    {
      var last := |childDirs| - 1;
      var dir, listing := childDirs[last].dir, childDirs[last].listing;
      ghost var size := StackSize(childDirs);
      childDirs := childDirs[..last];
      while listing.Entry?
        invariant multiset(kept) + StackWalk(q, childDirs) + Walk(q, dir, listing) == Walk(q, root, tree)
        invariant StackSize(childDirs) + Size(listing) < size
        decreases listing
      {
        childDirs, kept := Visit(q, dir, listing.name, listing.node, childDirs, kept);
        listing := listing.rest;
      }
    }
  }

  // ---------- what is found ----------

  // The names lead from the listing through directories to the node.
  predicate Located(listing: Listing, names: seq<string>, node: Node) {
    match listing
    case Nothing => false
    case Entry(name, here, rest) =>
      (names != [] && names[0] == name &&
       if |names| == 1 then here == node else here.Directory? && Located(here.listing, names[1..], node)) ||
      Located(rest, names, node)
  }

  function Trail(dir: string, names: seq<string>): string
    decreases |names|
  {
    if names == [] then dir else Trail(Join(dir, names[0]), names[1..])
  }

  // No directory on the way is pruned; the last name may be.
  predicate Unpruned(q: Query, names: seq<string>) {
    forall k :: 0 <= k < |names| - 1 ==> !AnyMatch(q.prunes, names[k])
  }

  predicate Finds(q: Query, dir: string, listing: Listing, names: seq<string>, node: Node, path: string) {
    Located(listing, names, node) && Unpruned(q, names) && path == Trail(dir, names) && Passes(q, path, node)
  }

  lemma {:induction false} WalkFinds(q: Query, dir: string, listing: Listing, path: string)
    returns (names: seq<string>, node: Node)
    requires path in Walk(q, dir, listing)
    ensures Finds(q, dir, listing, names, node, path)
    decreases listing
  {
    hide Passes;
    var Entry(name, here, rest) := listing;
    if path in Own(q, Join(dir, name), here) {
      names, node := [name], here;
      assert names[1..] == [] && Trail(dir, names) == Trail(Join(dir, name), []);
      assert Finds(q, dir, listing, names, node, path);
    } else if path in Below(q, dir, name, here) {
      var inner;
      inner, node := WalkFinds(q, Join(dir, name), here.listing, path);
      names := [name] + inner;
      OneMoreName(q, dir, name, here, rest, inner, node, path);
    } else {
      names, node := WalkFinds(q, dir, rest, path);
      assert Finds(q, dir, listing, names, node, path);
    }
  }

  lemma OneMoreName(q: Query, dir: string, name: string, here: Node, rest: Listing,
                    inner: seq<string>, node: Node, path: string)
    requires here.Directory? && !AnyMatch(q.prunes, name)
    requires Finds(q, Join(dir, name), here.listing, inner, node, path)
    ensures Finds(q, dir, Entry(name, here, rest), [name] + inner, node, path)
  {
    hide Passes;
    var names := [name] + inner;
    assert names[1..] == inner;
    assert inner != [] by {
      NoNames(here.listing, node);
    }
    forall k | 0 <= k < |names| - 1
      ensures !AnyMatch(q.prunes, names[k])
    {
      if k > 0 {
        assert names[k] == inner[k - 1];
      }
    }
  }

  lemma {:induction false} NoNames(listing: Listing, node: Node)
    ensures !Located(listing, [], node)
  {
    if listing.Entry? {
      NoNames(listing.rest, node);
    }
  }

  lemma {:induction false} FindsInWalk(q: Query, dir: string, listing: Listing,
                                       names: seq<string>, node: Node, path: string)
    requires Finds(q, dir, listing, names, node, path)
    ensures path in Walk(q, dir, listing)
    decreases listing
  {
    hide Passes;
    var Entry(name, here, rest) := listing;
    if Located(rest, names, node) {
      FindsInWalk(q, dir, rest, names, node, path);
    } else if |names| == 1 {
      assert names[1..] == [];
      assert path in Own(q, Join(dir, name), here);
    } else {
      forall k | 0 <= k < |names| - 2
        ensures !AnyMatch(q.prunes, names[1..][k])
      {
        assert names[1..][k] == names[k + 1];
      }
      FindsInWalk(q, Join(dir, name), here.listing, names[1..], node, path);
      assert path in Below(q, dir, name, here);
    }
  }

  // ---------- exactly once ----------

  // The part of path after the base of dir starts with this whole name.
  predicate LeadsTo(dir: string, name: string, path: string) {
    Join(dir, name) <= path && (|path| == |Join(dir, name)| || path[|Join(dir, name)|] == '/')
  }

  lemma NameDetermined(dir: string, a: string, b: string, path: string)
    requires IsName(a) && IsName(b) && LeadsTo(dir, a, path) && LeadsTo(dir, b, path)
    ensures a == b
  {
    var n := |Base(dir)|;
    assert path[n..n + |a|] == a && path[n..n + |b|] == b;
  }

  lemma {:induction false} WalkBelow(q: Query, dir: string, listing: Listing, path: string)
    requires path in Walk(q, dir, listing) && WellNamed(listing)
    ensures Base(dir) <= path && |path| > |Base(dir)|
    decreases listing
  {
    var Entry(name, node, rest) := listing;
    if path in Own(q, Join(dir, name), node) + Below(q, dir, name, node) {
      EntryLeads(q, dir, name, node, path);
    } else {
      WalkBelow(q, dir, rest, path);
    }
  }

  lemma {:induction false} EntryLeads(q: Query, dir: string, name: string, node: Node, path: string)
    requires path in Own(q, Join(dir, name), node) + Below(q, dir, name, node)
    requires IsName(name) && (node.Directory? ==> WellNamed(node.listing))
    ensures LeadsTo(dir, name, path) && |path| > |Base(dir)|
    ensures path in Below(q, dir, name, node) ==> |path| > |Join(dir, name)|
    decreases node
  {
    if path in Below(q, dir, name, node) {
      WalkBelow(q, Join(dir, name), node.listing, path);
      assert Base(Join(dir, name)) == Join(dir, name) + "/" by {
        assert Join(dir, name)[|Join(dir, name)| - 1] == name[|name| - 1];
      }
    }
  }

  lemma {:induction false} NotElsewhere(q: Query, dir: string, listing: Listing, name: string, path: string)
    requires WellNamed(listing) && NotNamed(listing, name) && IsName(name) && LeadsTo(dir, name, path)
    ensures Walk(q, dir, listing)[path] == 0
    decreases listing
  {
    if listing.Entry? {
      var Entry(other, node, rest) := listing;
      NotElsewhere(q, dir, rest, name, path);
      if path in Own(q, Join(dir, other), node) + Below(q, dir, other, node) {
        EntryLeads(q, dir, other, node, path);
        NameDetermined(dir, name, other, path);
      }
    }
  }

  lemma {:induction false} AtMostOnce(q: Query, dir: string, listing: Listing, path: string)
    requires WellNamed(listing)
    ensures Walk(q, dir, listing)[path] <= 1
    decreases listing
  {
    if listing.Entry? {
      var Entry(name, node, rest) := listing;
      var own, below := Own(q, Join(dir, name), node), Below(q, dir, name, node);
      AtMostOnce(q, dir, rest, path);
      if path in own + below {
        EntryLeads(q, dir, name, node, path);
        NotElsewhere(q, dir, rest, name, path);
        if path in below {
          AtMostOnce(q, Join(dir, name), node.listing, path);
        }
      }
    }
  }

  /** Each path is listed once if it leads through unpruned directories to an entry that passes, else not at all. */
  method Glob(q: Query, root: string, tree: Listing) returns (kept: seq<string>)
    requires WellNamed(tree)
    ensures multiset(kept) == Walk(q, root, tree)
    ensures forall path :: multiset(kept)[path] ==
              if exists names, node :: Finds(q, root, tree, names, node, path) then 1 else 0
  {
    kept := GlobImpl(q, root, tree);
    forall path
      ensures multiset(kept)[path] == if exists names, node :: Finds(q, root, tree, names, node, path) then 1 else 0
    {
      ExactlyOnce(q, root, tree, path);
    }
  }

  lemma ExactlyOnce(q: Query, root: string, tree: Listing, path: string)
    requires WellNamed(tree)
    ensures Walk(q, root, tree)[path] == if exists names, node :: Finds(q, root, tree, names, node, path) then 1 else 0
  {
    hide Finds, Walk, WellNamed;
    AtMostOnce(q, root, tree, path);
    if path in Walk(q, root, tree) {
      var names, node := WalkFinds(q, root, tree, path);
    }
    if names, node :| Finds(q, root, tree, names, node, path) {
      FindsInWalk(q, root, tree, names, node, path);
    }
  }

  // ---------- paths and types ----------

  function Slashed(names: seq<string>): string { if names == [] then "" else "/" + names[0] + Slashed(names[1..]) }

  /** A path is the root and the names, each after a slash. */
  lemma {:induction false} TrailSpelled(dir: string, names: seq<string>)
    requires dir != "" && dir[|dir| - 1] != '/' && forall i :: 0 <= i < |names| ==> IsName(names[i])
    ensures Trail(dir, names) == dir + Slashed(names)
    decreases |names|
  {
    hide IsName;
    if names != [] {
      JoinSpelled(dir, names[0]);
      Regroup(dir, "/", names[0]);
      TrailSpelled(dir + "/" + names[0], names[1..]);
      Regroup(dir, "/" + names[0], Slashed(names[1..]));
    }
  }

  lemma JoinSpelled(dir: string, name: string)
    requires dir != "" && dir[|dir| - 1] != '/' && IsName(name)
    ensures var path := dir + "/" + name; Join(dir, name) == path && path != "" && path[|path| - 1] != '/'
  {
  }

  lemma Regroup(a: string, b: string, c: string)
    ensures a + b + c == a + (b + c)
  {
  }

  /** 1 asks for directories, 2 for files, 3 for both; links, 4 and 8, find nothing in a tree without links. */
  lemma TypesWanted(q: Query, node: Node)
    ensures q.types == 1 ==> (TypeWanted(q, node) <==> node.Directory?)
    ensures q.types == 2 ==> (TypeWanted(q, node) <==> node.File?)
    ensures q.types == 3 ==> (TypeWanted(q, node) <==> !node.Other?)
    ensures q.types == 4 || q.types == 8 || q.types == 12 ==> !TypeWanted(q, node)
  {
  }

  /** What is listed matches some include and no exclude. */
  lemma ListedIsWanted(q: Query, dir: string, listing: Listing, path: string)
    requires path in Walk(q, dir, listing)
    ensures exists i :: 0 <= i < |q.includes| && q.includes[i](path)
    ensures forall i :: 0 <= i < |q.excludes| ==> !q.excludes[i](path)
  {
    hide Walk, Located, Unpruned;
    var names, node := WalkFinds(q, dir, listing, path);
  }
}
