/** Helm values trees and their overlays (publisher/vexa_channel.py). */
module Values {
  import opened Wrappers

  /** `Other` is a number, a boolean or a list, with the text `str` gives it. */
  datatype Scalar = Str(text: string) | Null | Other(text: string, truthy: bool)

  datatype Tree = Leaf(value: Scalar) | Node(kids: map<string, Tree>)

  type Path = seq<string>

  // ---------------------------------------------------------------- reading and writing one path

  function Dig(tree: Tree, path: Path): Option<Tree> {
    if path == [] then Some(tree)
    else if tree.Leaf? || path[0] !in tree.kids then None
    else Dig(tree.kids[path[0]], path[1..])
  }

  /** A path through something that is not a mapping replaces it by one. */
  function Set(tree: Tree, path: Path, value: Tree): Tree
    requires tree.Node? && path != []
    ensures Set(tree, path, value).Node?
    decreases |path|
  {
    if |path| == 1 then Node(tree.kids[path[0] := value])
    else
      var next := if path[0] in tree.kids && tree.kids[path[0]].Node? then tree.kids[path[0]] else Node(map[]);
      Node(tree.kids[path[0] := Set(next, path[1..], value)])
  }

  /** Neither path is a prefix of the other. */
  predicate Apart(p: Path, q: Path) {
    p != [] && q != [] && (p[0] != q[0] || Apart(p[1..], q[1..]))
  }

  lemma {:induction false} SetReadsBack(tree: Tree, path: Path, value: Tree)
    requires tree.Node? && path != []
    ensures Dig(Set(tree, path, value), path) == Some(value)
    decreases |path|
  {
    if |path| == 1 {
      assert path[1..] == [];
    } else {
      var next := if path[0] in tree.kids && tree.kids[path[0]].Node? then tree.kids[path[0]] else Node(map[]);
      SetReadsBack(next, path[1..], value);
    }
  }

  lemma {:induction false} SetLeavesOthers(tree: Tree, path: Path, value: Tree, other: Path)
    requires tree.Node? && Apart(path, other)
    ensures Dig(Set(tree, path, value), other) == Dig(tree, other)
    decreases |path|
  {
    if path[0] == other[0] {
      assert |path| > 1 && |other| > 1;
      var next := if path[0] in tree.kids && tree.kids[path[0]].Node? then tree.kids[path[0]] else Node(map[]);
      SetLeavesOthers(next, path[1..], value, other[1..]);
    }
  }

  // ---------------------------------------------------------------- deep merge

  function Merge(base: Tree, over: Tree): Tree
    requires base.Node? && over.Node?
    ensures Merge(base, over).Node?
    decreases over
  {
    Node(map k | k in base.kids.Keys + over.kids.Keys ::
           if k !in over.kids then base.kids[k]
           else if over.kids[k].Node? && k in base.kids && base.kids[k].Node? then Merge(base.kids[k], over.kids[k])
           else over.kids[k])
  }

  /** Whatever the base, a scalar of the overlay is what its path reads. */
  lemma {:induction false} MergeKeepsLeaf(base: Tree, over: Tree, path: Path)
    requires base.Node? && over.Node? && Dig(over, path).Some? && Dig(over, path).value.Leaf?
    ensures Dig(Merge(base, over), path) == Dig(over, path)
    decreases |path|
  {
    var k := path[0];
    if over.kids[k].Node? && k in base.kids && base.kids[k].Node? {
      MergeKeepsLeaf(base.kids[k], over.kids[k], path[1..]);
    }
  }

  /** The overlay says nothing on the way to this path, nor at it or below it. */
  predicate Silent(over: Tree, path: Path) {
    over.Node? && path != [] && (path[0] !in over.kids || Silent(over.kids[path[0]], path[1..]))
  }

  lemma {:induction false} SilentDigsNothing(over: Tree, path: Path)
    requires Silent(over, path)
    ensures Dig(over, path) == None
  {
    if path[0] in over.kids {
      SilentDigsNothing(over.kids[path[0]], path[1..]);
    }
  }

  lemma {:induction false} MergeLeavesSilent(base: Tree, over: Tree, path: Path)
    requires base.Node? && Silent(over, path)
    ensures Dig(Merge(base, over), path) == Dig(base, path)
    decreases |path|
  {
    var k := path[0];
    if k in over.kids {
      SilentDigsNothing(over.kids[k], path[1..]);
      assert path[1..] != [];
      if k in base.kids && base.kids[k].Node? {
        MergeLeavesSilent(base.kids[k], over.kids[k], path[1..]);
      }
    }
  }

  /** Merging the same overlay again changes nothing. */
  lemma {:induction false} MergeIdempotent(base: Tree, over: Tree)
    requires base.Node? && over.Node?
    ensures Merge(Merge(base, over), over) == Merge(base, over)
    decreases over
  {
    var once := Merge(base, over);
    var twice := Merge(once, over);
    forall k | k in once.kids ensures twice.kids[k] == once.kids[k] {
      if k in over.kids && over.kids[k].Node? {
        if k in base.kids && base.kids[k].Node? {
          MergeIdempotent(base.kids[k], over.kids[k]);
        } else {
          MergeSelf(over.kids[k]);
        }
      }
    }
    assert twice.kids == once.kids;
  }

  lemma {:induction false} MergeSelf(tree: Tree)
    requires tree.Node?
    ensures Merge(tree, tree) == tree
    decreases tree
  {
    forall k | k in tree.kids && tree.kids[k].Node? ensures Merge(tree.kids[k], tree.kids[k]) == tree.kids[k] {
      MergeSelf(tree.kids[k]);
    }
    assert Merge(tree, tree).kids == tree.kids;
  }

  // ---------------------------------------------------------------- an overlay built path by path

  datatype Write = Write(path: Path, text: string)

  function Overlay(writes: seq<Write>): Tree
    requires forall i | 0 <= i < |writes| :: writes[i].path != []
    ensures Overlay(writes).Node?
  {
    if writes == [] then Node(map[])
    else
      var last := writes[|writes| - 1];
      Set(Overlay(writes[..|writes| - 1]), last.path, Leaf(Str(last.text)))
  }

  ghost predicate ApartFromAll(path: Path, writes: seq<Write>) {
    path != [] && forall i | 0 <= i < |writes| :: Apart(writes[i].path, path)
  }

  /** No written path is a prefix of another. */
  ghost predicate PrefixFree(writes: seq<Write>) {
    && (forall i | 0 <= i < |writes| :: writes[i].path != [])
    && (forall i, j | 0 <= i < |writes| && 0 <= j < |writes| && i != j :: Apart(writes[i].path, writes[j].path))
  }

  lemma {:induction false} OverlayReadsBack(writes: seq<Write>, i: nat)
    requires PrefixFree(writes) && i < |writes|
    ensures Dig(Overlay(writes), writes[i].path) == Some(Leaf(Str(writes[i].text)))
  {
    var front, last := writes[..|writes| - 1], writes[|writes| - 1];
    if i == |front| {
      SetReadsBack(Overlay(front), last.path, Leaf(Str(last.text)));
    } else {
      assert writes[i] == front[i];
      OverlayReadsBack(front, i);
      SetLeavesOthers(Overlay(front), last.path, Leaf(Str(last.text)), writes[i].path);
    }
  }

  lemma {:induction false} SetStaysSilent(tree: Tree, path: Path, value: Tree, other: Path)
    requires tree.Node? && Silent(tree, other) && Apart(path, other)
    ensures Silent(Set(tree, path, value), other)
    decreases |path|
  {
    if path[0] == other[0] {
      assert |path| > 1 && |other| > 1;
      var next := if path[0] in tree.kids && tree.kids[path[0]].Node? then tree.kids[path[0]] else Node(map[]);
      SetStaysSilent(next, path[1..], value, other[1..]);
    }
  }

  lemma {:induction false} OverlaySilentElsewhere(writes: seq<Write>, path: Path)
    requires (forall i | 0 <= i < |writes| :: writes[i].path != []) && ApartFromAll(path, writes)
    ensures Silent(Overlay(writes), path)
  {
    if writes != [] {
      var front, last := writes[..|writes| - 1], writes[|writes| - 1];
      OverlaySilentElsewhere(front, path);
      SetStaysSilent(Overlay(front), last.path, Leaf(Str(last.text)), path);
    }
  }

  function MergeAll(base: Tree, overlays: seq<Tree>): Tree
    requires base.Node? && forall i | 0 <= i < |overlays| :: overlays[i].Node?
    ensures MergeAll(base, overlays).Node?
  {
    if overlays == [] then base
    else Merge(MergeAll(base, overlays[..|overlays| - 1]), overlays[|overlays| - 1])
  }

  /** Merged last over any base and any overlays, a prefix-free overlay makes each of
      its paths read what it wrote, and every path apart from all of them reads what
      it read before; merging it once more changes nothing. */
  lemma WritesSurviveOverlays(base: Tree, overlays: seq<Tree>, writes: seq<Write>, i: nat, other: Path)
    requires base.Node? && forall j | 0 <= j < |overlays| :: overlays[j].Node?
    requires PrefixFree(writes)
    ensures var before := MergeAll(base, overlays);
            var after := Merge(before, Overlay(writes));
            && (i < |writes| ==> Dig(after, writes[i].path) == Some(Leaf(Str(writes[i].text))))
            && (ApartFromAll(other, writes) ==> Dig(after, other) == Dig(before, other))
            && Merge(after, Overlay(writes)) == after
  {
    var before, over := MergeAll(base, overlays), Overlay(writes);
    if i < |writes| {
      OverlayReadsBack(writes, i);
      MergeKeepsLeaf(before, over, writes[i].path);
    }
    if ApartFromAll(other, writes) {
      OverlaySilentElsewhere(writes, other);
      MergeLeavesSilent(before, over, other);
    }
    MergeIdempotent(before, over);
  }
}
