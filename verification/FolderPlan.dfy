/** The folder plan: source directories to PST folders, level by level. The trie is drained breadth first,
    one group of siblings at a time; what has been placed so far always embeds, and what is still queued
    covers the rest. */
module FolderPlan {
  import opened Text
  import opened PathOrder
  import opened FolderNames
  import opened FolderTrie

  const MAX_DEPTH_SEGMENTS := 100

  /** One planned folder; the source of "Root Messages" is the empty path. */
  datatype MappedFolder = MappedFolder(source: string, target: seq<string>)

  datatype WorkItem = WorkItem(node: Node, parentSource: string, parentTarget: seq<string>)

  /** A folder placed in the plan, by the components of its source. */
  datatype Placed = Placed(path: seq<string>, target: seq<string>)

  /** The children of one placed folder, still to be processed. */
  datatype Block = Block(path: seq<string>, target: seq<string>, children: seq<Node>)

  function BaseName(key: string): string {
    if key == "" then ROOT_MESSAGES else NormalizeSegment(key)
  }

  /** The first of the names tried for a key that differs, up to case, from all given before. */
  ghost predicate NamedNext(before: seq<string>, name: string, key: string) {
    exists k: nat :: name == Candidate(BaseName(key), k) && forall j: nat :: j < k ==> IsUsed(before, Candidate(BaseName(key), j))
  }

  function Last<T>(s: seq<T>): T
    requires s != []
  {
    s[|s| - 1]
  }

  function Init<T>(s: seq<T>): seq<T>
    requires s != []
  {
    s[..|s| - 1]
  }

  ghost predicate IsPlaced(placed: seq<Placed>, path: seq<string>, target: seq<string>) {
    exists i :: 0 <= i < |placed| && placed[i].path == path && placed[i].target == target
  }

  /** The plan is an injective embedding of a tree of paths into a tree of folder names. */
  ghost predicate Embeds(placed: seq<Placed>) {
    && (forall i, j :: 0 <= i < j < |placed| ==>
          placed[i].path != placed[j].path && FoldEach(placed[i].target) != FoldEach(placed[j].target))
    && (forall i :: 0 <= i < |placed| ==> Fits(placed[i]))
    && (forall i :: 0 <= i < |placed| && |placed[i].path| > 1 ==>
          IsPlaced(placed, Init(placed[i].path), Init(placed[i].target)))
  }

  /** A folder is as deep as its source. */
  ghost predicate Fits(p: Placed) {
    |p.target| == |p.path| >= 1 && AllClean(p.target)
  }

  function DisplayName(key: string): string {
    if key == "" then ROOT_MESSAGES else key
  }

  /** Without regard to case, and exactly on a tie. */
  ghost predicate NoLater(a: string, b: string) {
    a == b || Ahead(Fold(a), Fold(b)) || (Fold(a) == Fold(b) && Ahead(a, b))
  }

  /** Another child of the same parent, not later in the order of names. Only "Root Messages" and a
      directory of that name are each earlier than the other. */
  ghost predicate Earlier(q: Placed, p: Placed) {
    && q.path != [] && p.path != [] && q.target != [] && q.path != p.path && Init(q.path) == Init(p.path)
    && NoLater(DisplayName(Last(q.path)), DisplayName(Last(p.path)))
  }

  ghost predicate TakenBefore(placed: seq<Placed>, p: Placed, name: string) {
    exists q :: q in placed && Earlier(q, p) && Fold(Last(q.target)) == Fold(name)
  }

  /** The folder has the first of the names tried for its source that no earlier sibling has. */
  ghost predicate NamedInTurn(placed: seq<Placed>, p: Placed) {
    && p.path != [] && p.target != []
    && exists k: nat :: NamedAt(placed, p, k)
  }

  ghost predicate NamedAt(placed: seq<Placed>, p: Placed, k: nat)
    requires p.path != [] && p.target != []
  {
    var base := BaseName(Last(p.path));
    Last(p.target) == Candidate(base, k) && forall j: nat :: j < k ==> TakenBefore(placed, p, Candidate(base, j))
  }

  ghost predicate InTurn(placed: seq<Placed>) {
    forall p :: p in placed ==> NamedInTurn(placed, p)
  }

  ghost predicate Below(b: Block, path: seq<string>) {
    |b.path| < |path| && b.path <= path && HasPath(b.children, path[|b.path|..])
  }

  ghost predicate BlockFits(placed: seq<Placed>, b: Block) {
    && b.children != [] && WellFormed(b.children) && AllClean(b.path) && AllClean(b.target) && |b.target| == |b.path|
    && (b.path != [] ==> IsPlaced(placed, b.path, b.target) && NoRootMessages(b.children))
  }

  /** The folders still to come are below placed ones, and no sibling of theirs is placed. */
  ghost predicate Pending(placed: seq<Placed>, blocks: seq<Block>) {
    && (forall b :: b in blocks ==> BlockFits(placed, b))
    && (forall i, j :: 0 <= i < j < |blocks| ==> blocks[i].path != blocks[j].path)
    && (forall i, b :: 0 <= i < |placed| && b in blocks ==>
          !Below(b, placed[i].path) && !(placed[i].path != [] && Init(placed[i].path) == b.path))
  }

  ghost predicate HasPlaced(placed: seq<Placed>, path: seq<string>) {
    exists i :: 0 <= i < |placed| && placed[i].path == path
  }

  ghost predicate Covered(placed: seq<Placed>, blocks: seq<Block>, path: seq<string>) {
    || HasPlaced(placed, path)
    || (exists b :: b in blocks && Below(b, path))
  }

  // ---- One sibling group ----

  /** The folders a group of siblings is placed in, given the names chosen for them. */
  function GroupPlaced(b: Block, order: seq<Node>, names: seq<string>): (placed: seq<Placed>)
    requires |order| == |names|
    ensures |placed| == |order|
  {
    seq(|order|, i requires 0 <= i < |order| => Placed(b.path + [Key(order[i])], b.target + [names[i]]))
  }

  function GroupBlocks(b: Block, order: seq<Node>, names: seq<string>): seq<Block>
    requires |order| == |names|
  {
    if order == [] then []
    else
      (if order[0].children == [] then []
       else [Block(b.path + [Key(order[0])], b.target + [names[0]], order[0].children)])
      + GroupBlocks(b, order[1..], names[1..])
  }

  /** Names given to siblings in turn, different up to case. */
  ghost predicate NamesFit(order: seq<Node>, names: seq<string>) {
    && |names| == |order|
    && (forall i :: 0 <= i < |order| ==> NamedNext(names[..i], names[i], Key(order[i])) && Clean(names[i]))
    && (forall i, j :: 0 <= i < j < |order| ==> Fold(names[i]) != Fold(names[j]))
  }

  lemma {:induction false} GroupBlocksAre(b: Block, order: seq<Node>, names: seq<string>, nb: Block)
    requires |order| == |names|
    ensures nb in GroupBlocks(b, order, names) <==>
      exists i :: 0 <= i < |order| && order[i].children != []
        && nb == Block(b.path + [Key(order[i])], b.target + [names[i]], order[i].children)
  {
    if order != [] {
      GroupBlocksAre(b, order[1..], names[1..], nb);
      assert forall i :: 0 < i < |order| ==> order[i] == order[1..][i - 1] && names[i] == names[1..][i - 1];
      assert order[0] == order[0];
    }
  }

  lemma {:induction false} GroupBlocksDiffer(b: Block, order: seq<Node>, names: seq<string>)
    requires |order| == |names| && DistinctKeys(order)
    ensures var nb := GroupBlocks(b, order, names);
      forall i, j :: 0 <= i < j < |nb| ==> nb[i].path != nb[j].path
  {
    if order != [] {
      var rest := GroupBlocks(b, order[1..], names[1..]);
      GroupBlocksDiffer(b, order[1..], names[1..]);
      forall k | 0 <= k < |rest| ensures rest[k].path != b.path + [Key(order[0])] {
        GroupBlocksAre(b, order[1..], names[1..], rest[k]);
        var i :| 0 <= i < |order| - 1 && rest[k].path == b.path + [Key(order[1..][i])];
        assert order[1..][i] == order[i + 1];
        assert rest[k].path[|b.path|] != (b.path + [Key(order[0])])[|b.path|];
      }
    }
  }

  ghost predicate IsOrderOf(order: seq<Node>, children: seq<Node>) {
    DistinctKeys(order) && multiset(order) == multiset(children) && forall c :: c in order <==> c in children
  }

  function ChildBlock(b: Block, child: Node, name: string): Block {
    Block(b.path + [Key(child)], b.target + [name], child.children)
  }

  /** A path below the block goes through one of its children. */
  lemma BelowThroughChild(b: Block, path: seq<string>)
    requires DistinctKeys(b.children)
    ensures Below(b, path) <==>
      && |b.path| < |path| && b.path <= path
      && exists c :: c in b.children && EndsAtOrBelow(b, c, path)
  {
    if |b.path| < |path| && b.path <= path {
      HasPathByMember(b.children, path[|b.path|..]);
    }
  }

  ghost predicate EndsAtOrBelow(b: Block, c: Node, path: seq<string>) {
    && |b.path| < |path| && b.path <= path && Key(c) == path[|b.path|]
    && (|path| == |b.path| + 1 || HasPath(c.children, path[|b.path|..][1..]))
  }

  lemma AtOrBelowChild(b: Block, c: Node, name: string, path: seq<string>)
    ensures EndsAtOrBelow(b, c, path) <==>
      path == b.path + [Key(c)] || (c.children != [] && Below(ChildBlock(b, c, name), path))
  {
    if |b.path| < |path| && b.path <= path && Key(c) == path[|b.path|] {
      assert path[..|b.path| + 1] == b.path + [Key(c)];
      assert path[|b.path|..][1..] == path[|b.path| + 1..];
      if |path| == |b.path| + 1 { assert path == b.path + [Key(c)]; }
      NothingBelowNothing(path[|b.path| + 1..]);
    }
  }

  lemma BelowThroughOrder(b: Block, order: seq<Node>, path: seq<string>)
    requires IsOrderOf(order, b.children) && DistinctKeys(b.children)
    ensures Below(b, path) <==> exists i :: 0 <= i < |order| && EndsAtOrBelow(b, order[i], path)
  {
    BelowThroughChild(b, path);
    assert forall c :: EndsAtOrBelow(b, c, path) ==> |b.path| < |path| && b.path <= path;
    assert forall c :: c in b.children ==> c in order;
    hide Below, DistinctKeys, EndsAtOrBelow;
  }

  lemma PlacedOrBelowNew(b: Block, order: seq<Node>, names: seq<string>, path: seq<string>)
    requires |order| == |names|
    ensures (exists i :: 0 <= i < |order| && EndsAtOrBelow(b, order[i], path)) <==>
      || (exists i :: 0 <= i < |order| && GroupPlaced(b, order, names)[i].path == path)
      || (exists i :: 0 <= i < |order| && order[i].children != [] && Below(ChildBlock(b, order[i], names[i]), path))
  {
    forall i | 0 <= i < |order|
      ensures EndsAtOrBelow(b, order[i], path) <==>
        || GroupPlaced(b, order, names)[i].path == path
        || (order[i].children != [] && Below(ChildBlock(b, order[i], names[i]), path))
    {
      AtOrBelowChild(b, order[i], names[i], path);
    }
    hide Below, EndsAtOrBelow, GroupPlaced, ChildBlock;
  }

  /** What was below the block is now placed, or below one of the new blocks. */
  lemma {:induction false} GroupCovers(b: Block, order: seq<Node>, names: seq<string>, path: seq<string>)
    requires IsOrderOf(order, b.children) && DistinctKeys(b.children) && |order| == |names|
    ensures Below(b, path) <==>
      || (exists i :: 0 <= i < |order| && GroupPlaced(b, order, names)[i].path == path)
      || (exists nb :: nb in GroupBlocks(b, order, names) && Below(nb, path))
  {
    BelowThroughOrder(b, order, path);
    PlacedOrBelowNew(b, order, names, path);
    hide IsOrderOf, DistinctKeys, GroupPlaced, Below, EndsAtOrBelow, GroupBlocks;
    forall nb ensures nb in GroupBlocks(b, order, names) <==>
      exists i :: 0 <= i < |order| && order[i].children != [] && nb == ChildBlock(b, order[i], names[i])
    {
      GroupBlocksAre(b, order, names, nb);
    }
    hide ChildBlock;
  }

  lemma {:induction false} FoldEachInit(parts: seq<string>)
    requires parts != []
    ensures FoldEach(Init(parts)) == Init(FoldEach(parts))
  {
  }

  lemma InitTargetsDiffer(was: seq<string>, target: seq<string>, name: string)
    requires was != [] && FoldEach(Init(was)) != FoldEach(target)
    ensures FoldEach(was) != FoldEach(target + [name])
  {
    assert Init(target + [name]) == target;
    FoldEachInit(was);
    FoldEachInit(target + [name]);
  }

  lemma DistinctTargets(placed: seq<Placed>, x: Placed, path: seq<string>, target: seq<string>)
    requires Embeds(placed) && IsPlaced(placed, x.path, x.target) && IsPlaced(placed, path, target) && x.path != path
    ensures FoldEach(x.target) != FoldEach(target)
  {
    hide Fits;
  }

  /** A new folder's target differs from that of every placed one. */
  lemma NewTargetDiffers(placed: seq<Placed>, b: Block, i: nat, name: string)
    requires Embeds(placed) && i < |placed| && BlockFits(placed, b)
    requires Init(placed[i].path) != b.path
    ensures FoldEach(placed[i].target) != FoldEach(b.target + [name])
  {
    var was := placed[i];
    assert Fits(was);
    hide WellFormed, FoldEach;
    if |was.path| == |b.path| + 1 && b.path != [] {
      assert IsPlaced(placed, Init(was.path), Init(was.target));
      DistinctTargets(placed, Placed(Init(was.path), Init(was.target)), b.path, b.target);
      InitTargetsDiffer(was.target, b.target, name);
    } else {
      DepthsDiffer(was.target, b.target, name);
    }
  }

  lemma DepthsDiffer(was: seq<string>, target: seq<string>, name: string)
    ensures |was| != |target| + 1 ==> FoldEach(was) != FoldEach(target + [name])
  {
  }

  lemma GroupTargetsDiffer(b: Block, order: seq<Node>, names: seq<string>, i: nat, j: nat)
    requires NamesFit(order, names) && DistinctKeys(order) && i < j < |order|
    ensures var group := GroupPlaced(b, order, names);
      group[i].path != group[j].path && FoldEach(group[i].target) != FoldEach(group[j].target)
  {
    var group := GroupPlaced(b, order, names);
    assert group[i].path[|b.path|] != group[j].path[|b.path|];
    assert FoldEach(group[i].target)[|b.target|] == Fold(names[i]);
    assert FoldEach(group[j].target)[|b.target|] == Fold(names[j]);
  }

  /** No placed folder is a child of the block that is processed next. */
  lemma NotYetAChild(placed: seq<Placed>, b: Block, rest: seq<Block>, i: nat)
    requires Embeds(placed) && Pending(placed, [b] + rest) && i < |placed|
    ensures placed[i].path != [] && Init(placed[i].path) != b.path
  {
    hide BlockFits, FoldEach;
    assert Fits(placed[i]);
    assert b in [b] + rest;
  }

  lemma OldAndNewDiffer(placed: seq<Placed>, b: Block, order: seq<Node>, names: seq<string>, i: nat, j: nat)
    requires Embeds(placed) && BlockFits(placed, b) && |order| == |names| && i < |placed| && j < |order|
    requires placed[i].path != [] && Init(placed[i].path) != b.path
    ensures var new_one := GroupPlaced(b, order, names)[j];
      placed[i].path != new_one.path && FoldEach(placed[i].target) != FoldEach(new_one.target)
  {
    assert Init(b.path + [Key(order[j])]) == b.path;
    NewTargetDiffers(placed, b, i, names[j]);
  }

  lemma AllTargetsDiffer(placed: seq<Placed>, b: Block, rest: seq<Block>, order: seq<Node>, names: seq<string>,
                         i: nat, j: nat)
    requires Embeds(placed) && Pending(placed, [b] + rest) && BlockFits(placed, b)
    requires |order| == |names| && DistinctKeys(order) && NamesFit(order, names)
    requires i < j < |placed + GroupPlaced(b, order, names)|
    ensures var all := placed + GroupPlaced(b, order, names);
      all[i].path != all[j].path && FoldEach(all[i].target) != FoldEach(all[j].target)
  {
    hide *;
    var group := GroupPlaced(b, order, names);
    var all := placed + group;
    if |placed| <= i {
      assert all[i] == group[i - |placed|] && all[j] == group[j - |placed|];
      GroupTargetsDiffer(b, order, names, i - |placed|, j - |placed|);
    } else if |placed| <= j {
      assert all[i] == placed[i] && all[j] == group[j - |placed|];
      NotYetAChild(placed, b, rest, i);
      OldAndNewDiffer(placed, b, order, names, i, j - |placed|);
    } else {
      OldDiffer(placed, i, j);
    }
  }

  lemma OldDiffer(placed: seq<Placed>, i: nat, j: nat)
    requires Embeds(placed) && i < j < |placed|
    ensures placed[i].path != placed[j].path && FoldEach(placed[i].target) != FoldEach(placed[j].target)
  {
  }

  lemma AllHaveParents(placed: seq<Placed>, b: Block, order: seq<Node>, names: seq<string>, i: nat)
    requires Embeds(placed) && BlockFits(placed, b) && |order| == |names|
    requires var all := placed + GroupPlaced(b, order, names); i < |all| && |all[i].path| > 1 && |all[i].target| > 0
    ensures var all := placed + GroupPlaced(b, order, names);
      IsPlaced(all, Init(all[i].path), Init(all[i].target))
  {
    var all := placed + GroupPlaced(b, order, names);
    hide Fits, WellFormed;
    if i < |placed| {
      StillPlaced(placed, GroupPlaced(b, order, names), Init(placed[i].path), Init(placed[i].target));
    } else {
      assert Init(all[i].path) == b.path && Init(all[i].target) == b.target;
      StillPlaced(placed, GroupPlaced(b, order, names), b.path, b.target);
    }
  }

  lemma StillPlaced(placed: seq<Placed>, more: seq<Placed>, path: seq<string>, target: seq<string>)
    requires IsPlaced(placed, path, target)
    ensures IsPlaced(placed + more, path, target)
  {
    var x :| 0 <= x < |placed| && placed[x].path == path && placed[x].target == target;
    assert (placed + more)[x] == placed[x];
  }

  /** Placing one whole group of siblings keeps the embedding. */
  lemma GroupEmbeds(placed: seq<Placed>, b: Block, rest: seq<Block>, order: seq<Node>, names: seq<string>)
    requires Embeds(placed) && Pending(placed, [b] + rest)
    requires IsOrderOf(order, b.children) && NamesFit(order, names)
    ensures Embeds(placed + GroupPlaced(b, order, names))
  {
    var all := placed + GroupPlaced(b, order, names);
    assert BlockFits(placed, b) by { assert b in [b] + rest; }
    assert DistinctKeys(order);
    forall i, j | 0 <= i < j < |all|
      ensures all[i].path != all[j].path && FoldEach(all[i].target) != FoldEach(all[j].target)
    {
      AllTargetsDiffer(placed, b, rest, order, names, i, j);
    }
    forall i | 0 <= i < |all| ensures Fits(all[i]) {
      if i >= |placed| { GroupFits(placed, b, order, names, i - |placed|); }
    }
    hide FoldEach, Fits, WellFormed, Pending;
    forall i | 0 <= i < |all| && |all[i].path| > 1 ensures IsPlaced(all, Init(all[i].path), Init(all[i].target)) {
      assert |all[i].target| > 0 by { FitsHasTarget(all[i]); }
      AllHaveParents(placed, b, order, names, i);
    }
  }

  lemma FitsHasTarget(p: Placed)
    requires Fits(p)
    ensures |p.target| == |p.path| > 0
  {
  }

  lemma GroupFits(placed: seq<Placed>, b: Block, order: seq<Node>, names: seq<string>, i: nat)
    requires BlockFits(placed, b) && NamesFit(order, names) && i < |order|
    ensures Fits(GroupPlaced(b, order, names)[i])
  {
  }

  lemma BelowParent(other: Block, path: seq<string>, key: string)
    requires Below(other, path + [key]) && other.path != path
    ensures Below(other, path)
  {
    var p := path + [key];
    assert other.path <= path;
    HasPathOfPrefix(other.children, p[|other.path|..], path[|other.path|..]);
  }

  /** The other blocks have nothing below the group of this one. */
  lemma GroupNotBelow(placed: seq<Placed>, b: Block, rest: seq<Block>, other: Block, key: string)
    requires Pending(placed, [b] + rest) && other in rest
    ensures !Below(other, b.path + [key])
  {
    assert ([b] + rest)[0] == b && b in [b] + rest && other in [b] + rest;
    var k :| 0 <= k < |rest| && rest[k] == other;
    assert ([b] + rest)[k + 1] == other;
    hide WellFormed;
    if Below(other, b.path + [key]) {
      BelowParent(other, b.path, key);
    }
  }

  /** A pending block is not a child of a pending block: else its parent would have a placed child. */
  lemma NoParentPending(placed: seq<Placed>, blocks: seq<Block>, other: Block, b: Block)
    requires Pending(placed, blocks) && other in blocks && b in blocks
    ensures other.path != [] ==> Init(other.path) != b.path
  {
    if other.path != [] {
      var y :| 0 <= y < |placed| && placed[y].path == other.path;
    }
  }

  /** The blocks left after a group: their parents are placed, and nothing of theirs is. */
  lemma {:induction false} GroupPends(placed: seq<Placed>, b: Block, rest: seq<Block>, order: seq<Node>, names: seq<string>)
    requires Embeds(placed) && Pending(placed, [b] + rest)
    requires IsOrderOf(order, b.children) && NamesFit(order, names)
    ensures Pending(placed + GroupPlaced(b, order, names), rest + GroupBlocks(b, order, names))
  {
    var all := placed + GroupPlaced(b, order, names);
    var left := rest + GroupBlocks(b, order, names);
    assert DistinctKeys(order) && DistinctKeys(b.children) by {
      assert b in [b] + rest;
      assert BlockFits(placed, b);
    }
    hide BlockFits, Below, IsOrderOf, NamesFit, Embeds, DistinctKeys, GroupBlocks;
    forall x | x in left ensures BlockFits(all, x) {
      LeftFits(placed, b, rest, order, names, x);
    }
    forall i, j | 0 <= i < j < |left| ensures left[i].path != left[j].path {
      LeftDiffer(placed, b, rest, order, names, i, j);
    }
    forall i, x | 0 <= i < |all| && x in left
      ensures !Below(x, all[i].path) && !(all[i].path != [] && Init(all[i].path) == x.path)
    {
      LeftDisjoint(placed, b, rest, order, names, i, x);
    }
  }

  lemma ChildBlockFits(b: Block, child: Node, name: string, placed: seq<Placed>)
    requires WellFormed(b.children) && AllClean(b.path) && AllClean(b.target) && |b.target| == |b.path|
    requires child in b.children && child.children != [] && Clean(name)
    requires IsPlaced(placed, b.path + [Key(child)], b.target + [name])
    ensures BlockFits(placed, ChildBlock(b, child, name))
  {
    hide HasPath, DistinctKeys;
  }

  lemma NewBlockFits(placed: seq<Placed>, b: Block, order: seq<Node>, names: seq<string>, i: nat)
    requires BlockFits(placed, b) && IsOrderOf(order, b.children) && NamesFit(order, names)
    requires i < |order| && order[i].children != []
    ensures BlockFits(placed + GroupPlaced(b, order, names), ChildBlock(b, order[i], names[i]))
  {
    var all := placed + GroupPlaced(b, order, names);
    hide WellFormed, NamedNext, AllClean, Fold, DistinctKeys;
    assert order[i] in b.children;
    assert all[|placed| + i] == Placed(b.path + [Key(order[i])], b.target + [names[i]]);
    ChildBlockFits(b, order[i], names[i], all);
  }

  lemma OldBlockFits(placed: seq<Placed>, more: seq<Placed>, x: Block)
    requires BlockFits(placed, x)
    ensures BlockFits(placed + more, x)
  {
    hide WellFormed;
    if x.path != [] {
      StillPlaced(placed, more, x.path, x.target);
    }
  }

  lemma {:induction false} LeftFits(placed: seq<Placed>, b: Block, rest: seq<Block>, order: seq<Node>,
                                    names: seq<string>, x: Block)
    requires Pending(placed, [b] + rest) && IsOrderOf(order, b.children) && NamesFit(order, names)
    requires x in rest + GroupBlocks(b, order, names)
    ensures BlockFits(placed + GroupPlaced(b, order, names), x)
  {
    assert b in [b] + rest;
    assert BlockFits(placed, b);
    if x in rest {
      assert x in [b] + rest;
      hide BlockFits, NamesFit, IsOrderOf;
      OldBlockFits(placed, GroupPlaced(b, order, names), x);
    } else {
      GroupBlocksAre(b, order, names, x);
      assert |order| == |names|;
      hide BlockFits, NamesFit, IsOrderOf;
      var i :| 0 <= i < |order| && order[i].children != []
        && x == Block(b.path + [Key(order[i])], b.target + [names[i]], order[i].children);
      NewBlockFits(placed, b, order, names, i);
    }
  }

  lemma {:induction false} LeftDiffer(placed: seq<Placed>, b: Block, rest: seq<Block>, order: seq<Node>,
                                      names: seq<string>, i: nat, j: nat)
    requires Pending(placed, [b] + rest) && DistinctKeys(order) && |order| == |names|
    requires i < j < |rest + GroupBlocks(b, order, names)|
    ensures var left := rest + GroupBlocks(b, order, names);
      left[i].path != left[j].path
  {
    var more := GroupBlocks(b, order, names);
    var left := rest + more;
    hide WellFormed, BlockFits;
    GroupBlocksDiffer(b, order, names);
    hide GroupBlocks;
    if j < |rest| {
      assert ([b] + rest)[i + 1] == rest[i] && ([b] + rest)[j + 1] == rest[j];
    } else if i < |rest| {
      assert left[j] in more && rest[i] in [b] + rest && b in [b] + rest;
      GroupBlocksAre(b, order, names, left[j]);
      var k :| 0 <= k < |order| && left[j].path == b.path + [Key(order[k])];
      assert Init(left[j].path) == b.path;
      NoParentPending(placed, [b] + rest, rest[i], b);
    }
  }

  lemma OldBlockDisjoint(placed: seq<Placed>, b: Block, rest: seq<Block>, order: seq<Node>, names: seq<string>,
                         i: nat, x: Block)
    requires Pending(placed, [b] + rest) && |order| == |names|
    requires i < |placed + GroupPlaced(b, order, names)| && x in rest
    ensures var path := (placed + GroupPlaced(b, order, names))[i].path;
      !Below(x, path) && !(path != [] && Init(path) == x.path)
  {
    hide BlockFits, Below;
    var path := (placed + GroupPlaced(b, order, names))[i].path;
    assert x in [b] + rest && ([b] + rest)[0] == b;
    var k :| 0 <= k < |rest| && rest[k] == x;
    assert ([b] + rest)[k + 1] == x;
    if i >= |placed| {
      var key := Key(order[i - |placed|]);
      assert path == b.path + [key] && Init(path) == b.path;
      GroupNotBelow(placed, b, rest, x, key);
    }
  }

  lemma {:induction false} LeftDisjoint(placed: seq<Placed>, b: Block, rest: seq<Block>, order: seq<Node>,
                                        names: seq<string>, i: nat, x: Block)
    requires Embeds(placed) && Pending(placed, [b] + rest) && IsOrderOf(order, b.children) && DistinctKeys(b.children)
    requires |order| == |names|
    requires i < |placed + GroupPlaced(b, order, names)| && x in rest + GroupBlocks(b, order, names)
    ensures var path := (placed + GroupPlaced(b, order, names))[i].path;
      !Below(x, path) && !(path != [] && Init(path) == x.path)
  {
    hide Embeds, Pending, IsOrderOf, DistinctKeys, Below;
    if x in rest {
      OldBlockDisjoint(placed, b, rest, order, names, i, x);
    } else {
      NewBlockDisjoint(placed, b, rest, order, names, i, x);
    }
  }

  lemma {:induction false} NewBlockDisjoint(placed: seq<Placed>, b: Block, rest: seq<Block>, order: seq<Node>,
                                            names: seq<string>, i: nat, x: Block)
    requires Embeds(placed) && Pending(placed, [b] + rest) && IsOrderOf(order, b.children) && DistinctKeys(b.children)
    requires |order| == |names|
    requires i < |placed + GroupPlaced(b, order, names)| && x in GroupBlocks(b, order, names)
    ensures var path := (placed + GroupPlaced(b, order, names))[i].path;
      !Below(x, path) && !(path != [] && Init(path) == x.path)
  {
    var path := (placed + GroupPlaced(b, order, names))[i].path;
    GroupBlocksAre(b, order, names, x);
    var k :| 0 <= k < |order| && order[k].children != []
      && x == Block(b.path + [Key(order[k])], b.target + [names[k]], order[k].children);
    assert Init(x.path) == b.path;
    hide WellFormed, FoldEach, Fits, IsOrderOf, HasPath;
    if i < |placed| {
      GroupCovers(b, order, names, path);
      assert b in [b] + rest;
      if |path| > 1 {
        assert IsPlaced(placed, Init(path), Init(placed[i].target)) by { assert Embeds(placed); FitsHasTarget(placed[i]); }
        var y :| 0 <= y < |placed| && placed[y].path == Init(path);
        assert Init(placed[y].path) != b.path;
      }
    }
  }

  /** Processing a group neither loses nor adds a path. */
  lemma {:induction false} GroupKeepsCovered(placed: seq<Placed>, b: Block, rest: seq<Block>, order: seq<Node>,
                                             names: seq<string>, path: seq<string>)
    requires BlockFits(placed, b) && IsOrderOf(order, b.children) && |order| == |names|
    ensures Covered(placed, [b] + rest, path)
      <==> Covered(placed + GroupPlaced(b, order, names), rest + GroupBlocks(b, order, names), path)
  {
    var group := GroupPlaced(b, order, names);
    var more := GroupBlocks(b, order, names);
    GroupCovers(b, order, names, path);
    hide Below, GroupBlocks, GroupPlaced;
    assert forall x :: x in [b] + rest <==> x == b || x in rest;
    assert forall x :: x in rest + more <==> x in rest || x in more;
    assert forall i :: 0 <= i < |group| ==> (placed + group)[|placed| + i] == group[i];
    assert forall i :: 0 <= i < |placed| ==> (placed + group)[i] == placed[i];
  }

  // ---- Names in turn ----

  lemma NodeLessEqExactly(a: Node, b: Node)
    ensures NodeLessEq(a, b) <==> NoLater(a.name, b.name)
  {
    LessEqExactly(a.name, b.name);
    LessEqExactly(Fold(a.name), Fold(b.name));
    assert !Ahead(Fold(a.name), Fold(a.name));
    hide LessEq, Ahead, Fold;
  }

  lemma {:induction false} DisplayNameIsName(siblings: seq<Node>, n: Node)
    requires WellFormed(siblings) && n in siblings
    ensures DisplayName(Key(n)) == n.name
  {
  }

  lemma EarlierInGroup(b: Block, order: seq<Node>, names: seq<string>, i: nat, j: nat)
    requires WellFormed(b.children) && IsOrderOf(order, b.children) && SiblingsSorted(order) && |order| == |names|
    requires i < j < |order|
    ensures var group := GroupPlaced(b, order, names); Earlier(group[i], group[j])
  {
    DisplayNameIsName(b.children, order[i]);
    DisplayNameIsName(b.children, order[j]);
    NodeLessEqExactly(order[i], order[j]);
    hide NoLater, WellFormed, NodeLessEq, DisplayName;
    var q, p := b.path + [Key(order[i])], b.path + [Key(order[j])];
    assert Init(q) == b.path == Init(p);
    assert q[|b.path|] != p[|b.path|];
  }

  /** A name used before in the group is taken by an earlier sibling. */
  lemma UsedIsTaken(placed: seq<Placed>, b: Block, order: seq<Node>, names: seq<string>, i: nat, name: string)
    requires WellFormed(b.children) && IsOrderOf(order, b.children) && SiblingsSorted(order) && |order| == |names|
    requires i < |order| && IsUsed(names[..i], name)
    ensures var group := GroupPlaced(b, order, names); TakenBefore(placed + group, group[i], name)
  {
    var group := GroupPlaced(b, order, names);
    var m :| 0 <= m < i && Fold(names[..i][m]) == Fold(name);
    EarlierInGroup(b, order, names, m, i);
    hide Earlier, Fold, WellFormed, IsOrderOf, SiblingsSorted;
    assert group[m] == (placed + group)[|placed| + m];
    assert Last(group[m].target) == names[m];
  }

  lemma GroupNamedInTurn(placed: seq<Placed>, b: Block, order: seq<Node>, names: seq<string>, i: nat)
    requires WellFormed(b.children) && IsOrderOf(order, b.children) && SiblingsSorted(order) && NamesFit(order, names)
    requires i < |order|
    ensures var group := GroupPlaced(b, order, names); NamedInTurn(placed + group, group[i])
  {
    var group := GroupPlaced(b, order, names);
    var key := Key(order[i]);
    assert NamedNext(names[..i], names[i], key);
    hide WellFormed, IsOrderOf, SiblingsSorted, IsUsed, Candidate, TakenBefore, BaseName, NamesFit;
    var k: nat :| names[i] == Candidate(BaseName(key), k) && forall j: nat :: j < k ==> IsUsed(names[..i], Candidate(BaseName(key), j));
    forall j: nat | j < k ensures TakenBefore(placed + group, group[i], Candidate(BaseName(key), j)) {
      UsedIsTaken(placed, b, order, names, i, Candidate(BaseName(key), j));
    }
    assert Last(group[i].target) == names[i] && Last(group[i].path) == key;
    assert NamedAt(placed + group, group[i], k);
  }

  lemma TakenStays(placed: seq<Placed>, all: seq<Placed>, p: Placed, name: string)
    requires TakenBefore(placed, p, name) && forall q :: q in placed ==> q in all
    ensures TakenBefore(all, p, name)
  {
    hide Earlier;
  }

  lemma InTurnStays(placed: seq<Placed>, all: seq<Placed>, p: Placed)
    requires NamedInTurn(placed, p) && forall q :: q in placed ==> q in all
    ensures NamedInTurn(all, p)
  {
    hide TakenBefore, Candidate, BaseName;
    var k: nat :| NamedAt(placed, p, k);
    var base := BaseName(Last(p.path));
    forall j: nat | j < k ensures TakenBefore(all, p, Candidate(base, j)) {
      TakenStays(placed, all, p, Candidate(base, j));
    }
    assert NamedAt(all, p, k);
  }

  lemma GroupKeepsTurns(placed: seq<Placed>, b: Block, order: seq<Node>, names: seq<string>)
    requires InTurn(placed) && WellFormed(b.children) && IsOrderOf(order, b.children) && SiblingsSorted(order)
    requires NamesFit(order, names)
    ensures InTurn(placed + GroupPlaced(b, order, names))
  {
    hide WellFormed, IsOrderOf, SiblingsSorted, NamesFit, NamedInTurn;
    NamesAreMany(order, names);
    var group := GroupPlaced(b, order, names);
    var all := placed + group;
    forall p | p in all ensures NamedInTurn(all, p) {
      if p in placed {
        InTurnStays(placed, all, p);
      } else {
        var i :| 0 <= i < |group| && group[i] == p;
        GroupNamedInTurn(placed, b, order, names, i);
      }
    }
  }

  // ---- The queue of work items ----

  function Items(b: Block): (items: seq<WorkItem>)
    ensures |items| == |b.children|
  {
    seq(|b.children|, i requires 0 <= i < |b.children| => WorkItem(b.children[i], Join(b.path), b.target))
  }

  function QueueOf(blocks: seq<Block>): seq<WorkItem> {
    if blocks == [] then [] else Items(blocks[0]) + QueueOf(blocks[1..])
  }

  function FoldersOf(placed: seq<Placed>): (folders: seq<MappedFolder>)
    ensures |folders| == |placed|
  {
    seq(|placed|, i requires 0 <= i < |placed| => MappedFolder(Join(placed[i].path), placed[i].target))
  }

  lemma {:induction false} QueueOfConcat(a: seq<Block>, b: seq<Block>)
    ensures QueueOf(a + b) == QueueOf(a) + QueueOf(b)
  {
    if a == [] {
      assert a + b == b;
    } else {
      assert (a + b)[1..] == a[1..] + b;
      QueueOfConcat(a[1..], b);
    }
  }

  lemma {:induction false} GroupBlocksSnoc(b: Block, order: seq<Node>, names: seq<string>, n: Node, name: string)
    requires |order| == |names|
    ensures GroupBlocks(b, order + [n], names + [name])
      == GroupBlocks(b, order, names) + if n.children == [] then [] else [ChildBlock(b, n, name)]
  {
    if order == [] {
      assert order + [n] == [n] && names + [name] == [name];
    } else {
      assert (order + [n])[1..] == order[1..] + [n] && (names + [name])[1..] == names[1..] + [name];
      GroupBlocksSnoc(b, order[1..], names[1..], n, name);
    }
  }

  predicate NodeLessEq(a: Node, b: Node) {
    if Fold(a.name) == Fold(b.name) then LessEq(a.name, b.name) else LessEq(Fold(a.name), Fold(b.name))
  }

  lemma NodeLessEqTotal(a: Node, b: Node)
    ensures NodeLessEq(a, b) || NodeLessEq(b, a)
  {
    LessEqTotal(a.name, b.name);
    LessEqTotal(Fold(a.name), Fold(b.name));
  }

  lemma NodeLessEqTransitive(a: Node, b: Node, c: Node)
    requires NodeLessEq(a, b) && NodeLessEq(b, c)
    ensures NodeLessEq(a, c)
  {
    var (x, y, z) := (Fold(a.name), Fold(b.name), Fold(c.name));
    if x == y == z {
      LessEqTransitive(a.name, b.name, c.name);
    } else if x != y && y != z {
      LessEqTransitive(x, y, z);
      if x == z { LessEqAntisymmetric(x, y); }
    }
  }

  ghost predicate SiblingsSorted(order: seq<Node>) {
    forall i, j :: 0 <= i < j < |order| ==> NodeLessEq(order[i], order[j])
  }

  /** Siblings in case-insensitive order of their names, ties broken by the exact name. */
  method SortSiblings(siblings: seq<Node>) returns (order: seq<Node>)
    requires DistinctKeys(siblings)
    ensures SiblingsSorted(order) && IsOrderOf(order, siblings)
  {
    order := [];
    for k := 0 to |siblings|
      invariant SiblingsSorted(order) && IsOrderOf(order, siblings[..k])
    {
      assert siblings[..k + 1] == siblings[..k] + [siblings[k]];
      var i := |order|;
      while i > 0 && !NodeLessEq(order[i - 1], siblings[k])
        invariant 0 <= i <= |order| && (i < |order| ==> NodeLessEq(siblings[k], order[i]))
      {
        NodeLessEqTotal(order[i - 1], siblings[k]);
        i := i - 1;
      }
      InsertSibling(order, i, siblings[..k], siblings[k]);
      order := order[..i] + [siblings[k]] + order[i..];
    }
    assert siblings[..|siblings|] == siblings;
  }

  lemma InsertInOrder(order: seq<Node>, i: nat, n: Node)
    requires SiblingsSorted(order) && i <= |order|
    requires i > 0 ==> NodeLessEq(order[i - 1], n)
    requires i < |order| ==> NodeLessEq(n, order[i])
    ensures SiblingsSorted(order[..i] + [n] + order[i..])
  {
    var r := order[..i] + [n] + order[i..];
    hide NodeLessEq;
    forall x, y | 0 <= x < y < |r| ensures NodeLessEq(r[x], r[y]) {
      if y == i && x < i - 1 { NodeLessEqTransitive(r[x], order[i - 1], n); }
      if x == i && y > i + 1 { NodeLessEqTransitive(n, order[i], r[y]); }
    }
  }

  lemma InsertDistinct(order: seq<Node>, i: nat, n: Node)
    requires DistinctKeys(order) && i <= |order| && forall x :: x in order ==> Key(x) != Key(n)
    ensures DistinctKeys(order[..i] + [n] + order[i..])
  {
    hide Key;
    var r := order[..i] + [n] + order[i..];
    forall x, y | 0 <= x < y < |r| ensures Key(r[x]) != Key(r[y]) {
      var a, b := if x < i then x else x - 1, if y < i then y else y - 1;
      if x == i {
        assert r[y] == order[b] && order[b] in order;
      } else if y == i {
        assert r[x] == order[a] && order[a] in order;
      } else {
        assert r[x] == order[a] && r[y] == order[b];
      }
    }
  }

  lemma InsertSibling(order: seq<Node>, i: nat, seen: seq<Node>, n: Node)
    requires SiblingsSorted(order) && IsOrderOf(order, seen) && i <= |order|
    requires DistinctKeys(seen + [n])
    requires i > 0 ==> NodeLessEq(order[i - 1], n)
    requires i < |order| ==> NodeLessEq(n, order[i])
    ensures SiblingsSorted(order[..i] + [n] + order[i..]) && IsOrderOf(order[..i] + [n] + order[i..], seen + [n])
  {
    InsertInOrder(order, i, n);
    hide NodeLessEq, Key, SiblingsSorted;
    forall x | x in order ensures Key(x) != Key(n) {
      var a :| 0 <= a < |seen| && seen[a] == x;
      assert (seen + [n])[a] == x && (seen + [n])[|seen|] == n;
    }
    InsertDistinct(order, i, n);
    InsertMembers(order, i, n);
    hide DistinctKeys;
  }

  lemma InsertMembers(order: seq<Node>, i: nat, n: Node)
    requires i <= |order|
    ensures multiset(order[..i] + [n] + order[i..]) == multiset(order) + multiset{n}
    ensures forall x :: x in order[..i] + [n] + order[i..] <==> x in order || x == n
  {
    assert order == order[..i] + order[i..];
  }

  /** The source path of a child. */
  function ChildSource(parentSource: string, n: Node): string {
    if n.isRootMessages then ""
    else if parentSource == "" then n.name
    else parentSource + [SEP] + n.name
  }

  lemma ChildSourceIsJoin(b: Block, n: Node)
    requires AllClean(b.path) && (n.isRootMessages ==> b.path == [])
    ensures ChildSource(Join(b.path), n) == Join(b.path + [Key(n)])
  {
    JoinSnoc(b.path, Key(n));
    JoinIsEmpty(b.path);
  }

  lemma CandidateIsClean(base: string, k: nat)
    requires Clean(base)
    ensures Clean(Candidate(base, k))
  {
  }

  lemma BaseNameIsClean(n: Node)
    requires n.isRootMessages || Clean(n.name)
    ensures Clean(BaseName(Key(n)))
  {
    if !n.isRootMessages { NormalizedIsNormal(n.name); }
    hide NormalizeSegment;
  }

  /** A fresh name for a node among the names its siblings already have. */
  method NameNode(n: Node, used: seq<string>) returns (name: string)
    requires n.isRootMessages || Clean(n.name)
    requires n.isRootMessages ==> n.name == ROOT_MESSAGES
    ensures NamedNext(used, name, Key(n)) && Clean(name) && !IsUsed(used, name)
  {
    BaseNameIsClean(n);
    var base := if n.isRootMessages then n.name else NormalizeSegment(n.name);
    hide NormalizeSegment;
    ghost var k;
    name, k := ResolveCollision(used, base);
    CandidateIsClean(base, k);
    hide Candidate, Clean;
  }

  lemma GroupPlacedSnoc(b: Block, order: seq<Node>, names: seq<string>, n: Node, name: string)
    requires |order| == |names|
    ensures GroupPlaced(b, order + [n], names + [name])
      == GroupPlaced(b, order, names) + [Placed(b.path + [Key(n)], b.target + [name])]
  {
  }

  lemma FoldersOfConcat(a: seq<Placed>, b: seq<Placed>)
    ensures FoldersOf(a + b) == FoldersOf(a) + FoldersOf(b)
  {
  }

  /** Adding a name that is free keeps the names of the group fit. */
  lemma NamesGrow(order: seq<Node>, names: seq<string>, n: Node, name: string)
    requires NamesFit(order, names) && NamedNext(names, name, Key(n)) && Clean(name) && !IsUsed(names, name)
    ensures NamesFit(order + [n], names + [name])
  {
    hide NamedNext, Fold, Clean;
    var all := names + [name];
    assert all[..|names|] == names;
    assert forall i :: 0 <= i < |names| ==> all[..i] == names[..i];
  }

  lemma ChildItems(b: Block, n: Node, name: string, queue: seq<WorkItem>)
    requires AllClean(b.path) && (n.isRootMessages ==> b.path == [])
    ensures queue + QueueOf(if n.children == [] then [] else [ChildBlock(b, n, name)])
      == queue + seq(|n.children|, i requires 0 <= i < |n.children| =>
           WorkItem(n.children[i], ChildSource(Join(b.path), n), b.target + [name]))
  {
    ChildSourceIsJoin(b, n);
    if n.children != [] {
      var block := ChildBlock(b, n, name);
      assert [block][1..] == [];
      assert QueueOf([block]) == Items(block);
    }
  }

  lemma ChildFolder(b: Block, order: seq<Node>, names: seq<string>, n: Node, name: string, folders: seq<MappedFolder>)
    requires |order| == |names| && AllClean(b.path) && (n.isRootMessages ==> b.path == [])
    ensures folders + FoldersOf(GroupPlaced(b, order + [n], names + [name]))
      == folders + FoldersOf(GroupPlaced(b, order, names)) + [MappedFolder(ChildSource(Join(b.path), n), b.target + [name])]
  {
    ChildSourceIsJoin(b, n);
    GroupPlacedSnoc(b, order, names, n, name);
    FoldersOfConcat(GroupPlaced(b, order, names), [Placed(b.path + [Key(n)], b.target + [name])]);
  }

  lemma {:induction false} ChildQueue(b: Block, order: seq<Node>, names: seq<string>, n: Node, name: string,
                                      queue: seq<WorkItem>)
    requires |order| == |names| && AllClean(b.path) && (n.isRootMessages ==> b.path == [])
    ensures queue + QueueOf(GroupBlocks(b, order + [n], names + [name]))
      == queue + QueueOf(GroupBlocks(b, order, names)) + seq(|n.children|, i requires 0 <= i < |n.children| =>
           WorkItem(n.children[i], ChildSource(Join(b.path), n), b.target + [name]))
  {
    var done := GroupBlocks(b, order, names);
    var more := if n.children == [] then [] else [ChildBlock(b, n, name)];
    GroupBlocksSnoc(b, order, names, n, name);
    QueueOfConcat(done, more);
    ChildItems(b, n, name, queue + QueueOf(done));
    hide QueueOf, GroupBlocks;
  }

  /** Names one sibling group, places its folders and queues the children of each. */
  method ProcessSiblingGroup(siblings: seq<Node>, parentSource: string, parentTarget: seq<string>,
                             folders: seq<MappedFolder>, queue: seq<WorkItem>, ghost b: Block)
    returns (folders': seq<MappedFolder>, queue': seq<WorkItem>, ghost order: seq<Node>, ghost names: seq<string>)
    requires b == Block(b.path, parentTarget, siblings) && parentSource == Join(b.path)
    requires WellFormed(siblings) && AllClean(b.path) && (b.path != [] ==> NoRootMessages(siblings))
    ensures SiblingsSorted(order) && IsOrderOf(order, siblings) && NamesFit(order, names)
    ensures folders' == folders + FoldersOf(GroupPlaced(b, order, names))
    ensures queue' == queue + QueueOf(GroupBlocks(b, order, names))
  {
    hide WellFormed, DistinctKeys, NamesFit, IsOrderOf, SiblingsSorted, GroupPlaced, GroupBlocks, QueueOf, FoldersOf, AllClean;
    SiblingsAreFit(siblings);
    var sorted := SortSiblings(siblings);
    order := sorted;
    OrderMembers(sorted, siblings);
    folders', queue' := folders, queue;
    var used: seq<string> := [];
    var k := 0;
    GroupStarts(b);
    while k < |sorted|
      invariant 0 <= k <= |sorted| && NamesFit(sorted[..k], used)
      invariant |used| == k && folders' == folders + FoldersOf(GroupPlaced(b, sorted[..k], used))
      invariant queue' == queue + QueueOf(GroupBlocks(b, sorted[..k], used))
    {
      var n := sorted[k];
      assert n in siblings;
      assert sorted[..k + 1] == sorted[..k] + [n];
      var name := NameNode(n, used);
      var source := ChildSource(parentSource, n);
      var target := parentTarget + [name];
      NamesGrow(sorted[..k], used, n, name);
      ChildFolder(b, sorted[..k], used, n, name, folders);
      ChildQueue(b, sorted[..k], used, n, name, queue);
      folders' := folders' + [MappedFolder(source, target)];
      queue' := queue' + seq(|n.children|, i requires 0 <= i < |n.children| => WorkItem(n.children[i], source, target));
      used := used + [name];
      k := k + 1;
    }
    assert sorted[..|sorted|] == sorted;
    names := used;
  }

  lemma {:induction false} SiblingsAreFit(siblings: seq<Node>)
    requires WellFormed(siblings)
    ensures DistinctKeys(siblings)
    ensures forall n :: n in siblings ==> if n.isRootMessages then n.name == ROOT_MESSAGES else Clean(n.name)
  {
  }

  lemma OrderMembers(order: seq<Node>, siblings: seq<Node>)
    requires IsOrderOf(order, siblings)
    ensures forall n :: n in order ==> n in siblings
  {
  }

  lemma {:induction false} GroupStarts(b: Block)
    ensures NamesFit([], []) && FoldersOf(GroupPlaced(b, [], [])) == [] && QueueOf(GroupBlocks(b, [], [])) == []
  {
  }

  // ---- The whole plan ----

  function BlocksSize(blocks: seq<Block>): nat {
    if blocks == [] then 0 else Size(blocks[0].children) + BlocksSize(blocks[1..])
  }

  lemma {:induction false} BlocksSizeConcat(a: seq<Block>, b: seq<Block>)
    ensures BlocksSize(a + b) == BlocksSize(a) + BlocksSize(b)
  {
    if a == [] {
      assert a + b == b;
    } else {
      assert (a + b)[1..] == a[1..] + b;
      BlocksSizeConcat(a[1..], b);
    }
  }

  lemma {:induction false} GroupBlocksAreSmaller(b: Block, order: seq<Node>, names: seq<string>)
    requires |order| == |names|
    ensures BlocksSize(GroupBlocks(b, order, names)) + |order| == Size(order)
  {
    if order != [] {
      GroupBlocksAreSmaller(b, order[1..], names[1..]);
      var first := if order[0].children == [] then [] else [ChildBlock(b, order[0], names[0])];
      BlocksSizeConcat(first, GroupBlocks(b, order[1..], names[1..]));
    }
  }

  lemma Cancel<T>(x: T, a: multiset<T>, b: multiset<T>)
    requires multiset{x} + a == b + multiset{x}
    ensures a == b
  {
    assert a == (multiset{x} + a) - multiset{x};
    assert b == (b + multiset{x}) - multiset{x};
  }

  lemma {:induction false} SizeOfOrder(a: seq<Node>, b: seq<Node>)
    requires multiset(a) == multiset(b)
    ensures Size(a) == Size(b)
  {
    if a == [] {
      assert |b| == |multiset(b)|;
    } else {
      assert a[0] in multiset(b);
      var j :| 0 <= j < |b| && b[j] == a[0];
      assert a == [a[0]] + a[1..] && b == b[..j] + ([b[j]] + b[j + 1..]);
      assert multiset(b) == multiset(b[..j] + b[j + 1..]) + multiset{b[j]};
      assert multiset(a) == multiset{a[0]} + multiset(a[1..]);
      Cancel(a[0], multiset(a[1..]), multiset(b[..j] + b[j + 1..]));
      SizeOfOrder(a[1..], b[..j] + b[j + 1..]);
      SizeConcat(b[..j], [b[j]] + b[j + 1..]);
      SizeConcat([b[j]], b[j + 1..]);
      SizeConcat(b[..j], b[j + 1..]);
    }
  }

  /** The loop state: what is placed, what is queued, and every path of the trie in one of both. */
  ghost predicate PlanState(trie: seq<Node>, placed: seq<Placed>, blocks: seq<Block>) {
    && Embeds(placed) && Pending(placed, blocks)
    && forall p :: Covered(placed, blocks, p) <==> HasPath(trie, p)
  }

  lemma {:induction false} GroupKeepsState(trie: seq<Node>, placed: seq<Placed>, blocks: seq<Block>, order: seq<Node>,
                                           names: seq<string>)
    requires PlanState(trie, placed, blocks) && blocks != []
    requires IsOrderOf(order, blocks[0].children) && |order| == |names| && NamesFit(order, names)
    ensures var left := blocks[1..] + GroupBlocks(blocks[0], order, names);
      && PlanState(trie, placed + GroupPlaced(blocks[0], order, names), left)
      && BlocksSize(left) < BlocksSize(blocks)
  {
    var b := blocks[0];
    assert BlockFits(placed, b) by { assert Pending(placed, blocks); }
    assert multiset(order) == multiset(b.children) && b.children != [];
    hide Embeds, Pending, BlockFits, IsOrderOf, NamesFit, HasPath, Covered, GroupPlaced, GroupBlocks;
    assert [b] + blocks[1..] == blocks;
    GroupEmbeds(placed, b, blocks[1..], order, names);
    GroupPends(placed, b, blocks[1..], order, names);
    forall p ensures Covered(placed + GroupPlaced(b, order, names), blocks[1..] + GroupBlocks(b, order, names), p) <==> HasPath(trie, p) {
      GroupKeepsCovered(placed, b, blocks[1..], order, names, p);
    }
    BlocksSizeConcat(blocks[1..], GroupBlocks(b, order, names));
    GroupBlocksAreSmaller(b, order, names);
    SizeOfOrder(order, b.children);
    assert |order| == |multiset(order)| == |b.children|;
  }

  lemma {:induction false} FirstState(trie: seq<Node>)
    requires WellFormed(trie) && trie != []
    ensures PlanState(trie, [], [Block([], [], trie)])
  {
    var b := Block([], [], trie);
    forall p ensures Covered([], [b], p) <==> HasPath(trie, p) {
      if p != [] { assert p[0..] == p; }
      assert b in [b];
    }
    hide WellFormed, HasPath;
  }

  /** Takes the children of one parent from the front of the queue. */
  method TakeGroup(queue: seq<WorkItem>, ghost b: Block, ghost rest: seq<Block>) returns (siblings: seq<Node>,
                   left: seq<WorkItem>)
    requires queue == Items(b) + QueueOf(rest) && b.children != [] && AllClean(b.path)
    requires rest != [] ==> rest[0].children != [] && AllClean(rest[0].path) && rest[0].path != b.path
    ensures siblings == b.children && left == QueueOf(rest)
  {
    var first := queue[0];
    siblings, left := [first.node], queue[1..];
    if rest != [] { JoinInjective(b.path, rest[0].path); }
    NextBlockFirst(rest);
    hide QueueOf, Join, AllClean;
    while left != [] && left[0].parentSource == first.parentSource
      invariant 1 <= |siblings| <= |b.children| && siblings == b.children[..|siblings|]
      invariant left == Items(b)[|siblings|..] + QueueOf(rest)
      decreases |left|
    {
      siblings, left := siblings + [left[0].node], left[1..];
    }
  }

  lemma {:induction false} NextBlockFirst(rest: seq<Block>)
    requires rest != [] ==> rest[0].children != []
    ensures QueueOf(rest) != [] <==> rest != []
    ensures rest != [] ==> QueueOf(rest)[0].parentSource == Join(rest[0].path)
  {
  }

  /** Places every path of the trie, breadth first. */
  method PlaceTrie(trie: seq<Node>) returns (folders: seq<MappedFolder>, ghost placed: seq<Placed>)
    requires WellFormed(trie)
    ensures folders == FoldersOf(placed) && Embeds(placed) && InTurn(placed)
    ensures forall p :: HasPlaced(placed, p) <==> HasPath(trie, p)
  {
    var queue;
    ghost var order, names;
    ghost var root := Block([], [], trie);
    folders, queue, order, names := ProcessSiblingGroup(trie, "", [], [], [], root);
    placed := GroupPlaced(root, order, names);
    ghost var blocks := GroupBlocks(root, order, names);
    StateAfterRoot(trie, order, names);
    GroupKeepsTurns([], root, order, names);
    assert [] + placed == placed;
    hide InTurn, HasPath, Embeds, WellFormed, GroupPlaced, GroupBlocks, FoldersOf, NamesFit, IsOrderOf, SiblingsSorted, Covered;
    while queue != []
      invariant queue == QueueOf(blocks) && folders == FoldersOf(placed) && PlanState(trie, placed, blocks)
      invariant InTurn(placed)
      decreases BlocksSize(blocks)
    {
      ghost var b, rest := blocks[0], blocks[1..];
      QueueFront(placed, blocks);
      var source, target := queue[0].parentSource, queue[0].parentTarget;
      var siblings;
      siblings, queue := TakeGroup(queue, b, rest);
      folders, queue, order, names := ProcessSiblingGroup(siblings, source, target, folders, queue, b);
      NamesAreMany(order, names);
      GroupKeepsState(trie, placed, blocks, order, names);
      GroupKeepsTurns(placed, b, order, names);
      QueueOfConcat(rest, GroupBlocks(b, order, names));
      FoldersOfConcat(placed, GroupPlaced(b, order, names));
      placed := placed + GroupPlaced(b, order, names);
      blocks := rest + GroupBlocks(b, order, names);
    }
    NothingLeft(trie, placed, blocks);
  }

  lemma NamesAreMany(order: seq<Node>, names: seq<string>)
    requires NamesFit(order, names)
    ensures |order| == |names|
  {
  }

  lemma {:induction false} QueueFront(placed: seq<Placed>, blocks: seq<Block>)
    requires Pending(placed, blocks) && QueueOf(blocks) != []
    ensures blocks != [] && QueueOf(blocks) == Items(blocks[0]) + QueueOf(blocks[1..])
    ensures var b := blocks[0];
      && b.children != [] && WellFormed(b.children) && AllClean(b.path) && (b.path != [] ==> NoRootMessages(b.children))
      && QueueOf(blocks)[0].parentSource == Join(b.path) && QueueOf(blocks)[0].parentTarget == b.target
    ensures |blocks| > 1 ==> blocks[1].children != [] && AllClean(blocks[1].path) && blocks[1].path != blocks[0].path
  {
    hide WellFormed, Below;
    assert BlockFits(placed, blocks[0]);
    if |blocks| > 1 { assert BlockFits(placed, blocks[1]); }
  }

  lemma {:induction false} StateAfterRoot(trie: seq<Node>, order: seq<Node>, names: seq<string>)
    requires WellFormed(trie) && IsOrderOf(order, trie) && NamesFit(order, names)
    ensures |order| == |names|
    ensures var root := Block([], [], trie);
      PlanState(trie, GroupPlaced(root, order, names), GroupBlocks(root, order, names))
  {
    hide *;
    NamesAreMany(order, names);
    if trie == [] {
      NoOrder(order, trie);
      EmptyState(Block([], [], trie), order, names);
    } else {
      FirstState(trie);
      RootKeepsState(trie, order, names);
    }
  }

  lemma {:induction false} RootKeepsState(trie: seq<Node>, order: seq<Node>, names: seq<string>)
    requires var root := Block([], [], trie); PlanState(trie, [], [root]) && IsOrderOf(order, trie) && NamesFit(order, names)
    ensures |order| == |names|
    ensures var root := Block([], [], trie);
      PlanState(trie, GroupPlaced(root, order, names), GroupBlocks(root, order, names))
  {
    hide *;
    NamesAreMany(order, names);
    var root := Block([], [], trie);
    assert [root][0] == root && root.children == trie;
    GroupKeepsState(trie, [], [root], order, names);
    assert [root][1..] == [];
    assert [] + GroupPlaced(root, order, names) == GroupPlaced(root, order, names);
    assert [] + GroupBlocks(root, order, names) == GroupBlocks(root, order, names);
  }

  lemma NoOrder(order: seq<Node>, trie: seq<Node>)
    requires IsOrderOf(order, trie) && trie == []
    ensures order == []
  {
    assert |order| == |multiset(order)|;
  }

  lemma {:induction false} EmptyState(root: Block, order: seq<Node>, names: seq<string>)
    requires order == [] && names == []
    ensures PlanState([], GroupPlaced(root, order, names), GroupBlocks(root, order, names))
  {
    forall p ensures !Covered([], [], p) && !HasPath([], p) {
      NothingBelowNothing(p);
    }
  }

  lemma {:induction false} QueueHasBlocks(placed: seq<Placed>, blocks: seq<Block>)
    requires Pending(placed, blocks) && QueueOf(blocks) == []
    ensures blocks == []
  {
    hide WellFormed, Below;
    assert forall b :: b in blocks ==> b.children != [];
    NextBlockFirst(blocks);
  }

  lemma {:induction false} NothingLeft(trie: seq<Node>, placed: seq<Placed>, blocks: seq<Block>)
    requires PlanState(trie, placed, blocks) && QueueOf(blocks) == []
    ensures Embeds(placed)
    ensures forall p :: HasPlaced(placed, p) <==> HasPath(trie, p)
  {
    QueueHasBlocks(placed, blocks);
    forall p ensures HasPlaced(placed, p) <==> HasPath(trie, p) {
      assert Covered(placed, blocks, p) <==> HasPath(trie, p);
    }
  }
}
