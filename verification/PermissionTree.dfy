/** Unfolding nested action groups into a tree
    (public/apps/configuration/panels/permission-tree/permission-tree.tsx). */
module PermissionTree {
  import opened Wrappers

  const MAX_DEPTH := 5

  /** Each group's allowed actions, which may name further groups, even the group itself. */
  type ActionGroups = map<string, seq<string>>

  /** Bare nodes have no list of children at all; `isLeaf` is the class name shown. */
  datatype Node =
    | Bare(name: string, isLeaf: bool)
    | Group(name: string, children: seq<Node>, isLeaf: bool)

  function BuildTreeItem(name: string, depth: nat, actionGroups: ActionGroups): Node
    decreases if depth < MAX_DEPTH then MAX_DEPTH - depth else 0
  {
    var children := if depth < MAX_DEPTH && name in actionGroups then Some(actionGroups[name]) else None;
    match children
    case None => Bare(name, true)
    case Some(names) =>
      Group(name,
            seq(|names|, i requires 0 <= i < |names| => BuildTreeItem(names[i], depth + 1, actionGroups)),
            names == [])
  }

  /** The names on the way from the root of the tree down to some node. */
  ghost predicate IsPath(node: Node, path: seq<string>)
    decreases |path|
  {
    && path != [] && path[0] == node.name
    && (|path| == 1 ||
        (node.Group? && exists i :: 0 <= i < |node.children| && IsPath(node.children[i], path[1..])))
  }

  /** Each name after the first is an allowed action of the one before. */
  ghost predicate IsWalk(actionGroups: ActionGroups, walk: seq<string>) {
    forall i :: 0 <= i < |walk| - 1 ==> walk[i] in actionGroups && walk[i + 1] in actionGroups[walk[i]]
  }

  lemma WalkStep(actionGroups: ActionGroups, walk: seq<string>)
    requires |walk| > 1
    ensures IsWalk(actionGroups, walk) <==>
            walk[0] in actionGroups && walk[1] in actionGroups[walk[0]] && IsWalk(actionGroups, walk[1..])
  {
    if walk[0] in actionGroups && walk[1] in actionGroups[walk[0]] && IsWalk(actionGroups, walk[1..]) {
      forall i | 0 <= i < |walk| - 1
        ensures walk[i] in actionGroups && walk[i + 1] in actionGroups[walk[i]]
      {
        if i > 0 {
          assert walk[1..][i - 1] in actionGroups && walk[1..][i - 1 + 1] in actionGroups[walk[1..][i - 1]];
        }
      }
    }
    if IsWalk(actionGroups, walk) {
      forall i | 0 <= i < |walk[1..]| - 1
        ensures walk[1..][i] in actionGroups && walk[1..][i + 1] in actionGroups[walk[1..][i]]
      {
        assert walk[i + 1] in actionGroups && walk[i + 1 + 1] in actionGroups[walk[i + 1]];
      }
    }
  }

  /** Main result: the tree's paths from its root are exactly the graph's walks from there with
      no more steps than the depth left, also when the groups are nested in a cycle. */
  lemma {:induction false} PathsAreBoundedWalks(name: string, depth: nat, actionGroups: ActionGroups, path: seq<string>)
    requires depth <= MAX_DEPTH
    ensures IsPath(BuildTreeItem(name, depth, actionGroups), path) <==>
            path != [] && path[0] == name && |path| - 1 <= MAX_DEPTH - depth && IsWalk(actionGroups, path)
    decreases MAX_DEPTH - depth
  {
    var node := BuildTreeItem(name, depth, actionGroups);
    if |path| > 1 && path[0] == name && node.Group? {
      var names, children := actionGroups[name], node.children;
      WalkStep(actionGroups, path);
      forall i | 0 <= i < |names|
        ensures IsPath(children[i], path[1..]) <==>
                path[1] == names[i] && |path| - 1 <= MAX_DEPTH - depth && IsWalk(actionGroups, path[1..])
      {
        PathsAreBoundedWalks(names[i], depth + 1, actionGroups, path[1..]);
      }
    } else if |path| > 1 {
      WalkStep(actionGroups, path);
    }
  }

  /** Main result: below the greatest depth a group's node has one child per allowed action, in
      the same order; any other node has no list of children; and a node is shown as a leaf
      exactly when it has no children. */
  lemma NodeShows(name: string, depth: nat, actionGroups: ActionGroups)
    ensures var node := BuildTreeItem(name, depth, actionGroups);
            && node.name == name
            && (node.Group? <==> depth < 5 && name in actionGroups)
            && (node.Group? ==>
                  && |node.children| == |actionGroups[name]|
                  && forall i :: 0 <= i < |node.children| ==> node.children[i].name == actionGroups[name][i])
            && (node.isLeaf <==> node.Bare? || |node.children| == 0)
  {
    var node := BuildTreeItem(name, depth, actionGroups);
    if node.Group? {
      forall i | 0 <= i < |node.children|
        ensures node.children[i].name == actionGroups[name][i]
      {
        assert node.children[i] == BuildTreeItem(actionGroups[name][i], depth + 1, actionGroups);
      }
    }
  }

  function Size(node: Node): nat {
    match node
    case Bare(_, _) => 1
    case Group(_, children, _) => 1 + SizeAll(children)
  }

  function SizeAll(nodes: seq<Node>): nat {
    if nodes == [] then 0 else Size(nodes[0]) + SizeAll(nodes[1..])
  }

  /** 1 + b + ... + b^k */
  function Geometric(b: nat, k: nat): nat {
    if k == 0 then 1 else 1 + b * Geometric(b, k - 1)
  }

  lemma {:induction false} SizeAllBounded(nodes: seq<Node>, bound: nat)
    requires forall i :: 0 <= i < |nodes| ==> Size(nodes[i]) <= bound
    ensures SizeAll(nodes) <= |nodes| * bound
  {
    if nodes == [] {
    } else {
      SizeAllBounded(nodes[1..], bound);
      assert |nodes| * bound == bound + |nodes[1..]| * bound;
    }
  }

  /** With at most `b` actions per group the tree has at most 1 + b + ... nodes, however the
      groups refer to each other. */
  lemma {:induction false} SizeBounded(name: string, depth: nat, actionGroups: ActionGroups, b: nat)
    requires depth <= MAX_DEPTH
    requires forall group :: group in actionGroups ==> |actionGroups[group]| <= b
    ensures Size(BuildTreeItem(name, depth, actionGroups)) <= Geometric(b, MAX_DEPTH - depth)
    decreases MAX_DEPTH - depth
  {
    var node := BuildTreeItem(name, depth, actionGroups);
    if node.Group? {
      var children, bound := node.children, Geometric(b, MAX_DEPTH - depth - 1);
      forall i | 0 <= i < |children|
        ensures Size(children[i]) <= bound
      {
        SizeBounded(actionGroups[name][i], depth + 1, actionGroups, b);
      }
      SizeAllBounded(children, bound);
      hide BuildTreeItem;
      hide SizeAll;
      ProductMonotone(|children|, b, bound);
    }
  }

  lemma ProductMonotone(m: nat, n: nat, factor: nat)
    requires m <= n
    ensures m * factor <= n * factor
  {
    assert n * factor == m * factor + (n - m) * factor;
  }

  lemma WholeTreeBounded(name: string, actionGroups: ActionGroups, b: nat)
    requires forall group :: group in actionGroups ==> |actionGroups[group]| <= b
    ensures Size(BuildTreeItem(name, 0, actionGroups)) <= 1 + b * (1 + b * (1 + b * (1 + b * (1 + b))))
  {
    SizeBounded(name, 0, actionGroups, b);
    assert Geometric(b, 1) == 1 + b * Geometric(b, 0) == 1 + b;
    assert Geometric(b, 2) == 1 + b * Geometric(b, 1);
    assert Geometric(b, 3) == 1 + b * Geometric(b, 2);
    assert Geometric(b, 4) == 1 + b * Geometric(b, 3);
    assert Geometric(b, 5) == 1 + b * Geometric(b, 4);
  }
}
