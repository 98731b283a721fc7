/** The pure side of the entity hierarchy: what `update_children_depth` computes,
    the descendants of an entity, and the facts that make a parent/children
    forest consistent.  The imperative methods of `SceneGraph.World` are proved
    against these definitions. */
module Hierarchy {
  import opened Handles
  import opened Collections

  /** The arena's entity tables, indexed by entity handle. */
  type Children = seq<seq<EntityRef>>
  type Ranks = seq<nat>
  type Parents = seq<Option<EntityRef>>
  type Depths = seq<nat>

  /** Every listed child is a known entity of strictly lower rank.  The rank is
      the model's witness that the children lists contain no cycle, which the
      recursive depth update needs in order to terminate. */
  ghost predicate Ranked(ch: Children, rk: Ranks)
  {
    |rk| == |ch| &&
    (forall x, i :: 0 <= x < |ch| && 0 <= i < |ch[x]| ==> ch[x][i] < |ch| && rk[ch[x][i]] < rk[x])
  }

  /** Every entity of `kids` is known and ranked below `bound`. */
  ghost predicate Below(ch: Children, rk: Ranks, kids: seq<EntityRef>, bound: nat)
    requires Ranked(ch, rk)
  {
    forall k :: k in kids ==> k < |ch| && rk[k] < bound
  }

  lemma ChildrenBelow(ch: Children, rk: Ranks, x: EntityRef)
    requires Ranked(ch, rk) && x < |ch|
    ensures Below(ch, rk, ch[x], rk[x])
  {
    forall k | k in ch[x] ensures k < |ch| && rk[k] < rk[x] {
      var i :| 0 <= i < |ch[x]| && ch[x][i] == k;
    }
  }

  // ---------------------------------------------------------------------------
  // update_children_depth

  /** The depths after `update_children_depth` on `e`: every child, in list order,
      gets the depth of `e` plus one, and then its own subtree is updated. */
  ghost function UpdatedDepths(ch: Children, rk: Ranks, d: Depths, e: EntityRef): (r: Depths)
    requires Ranked(ch, rk) && e < |ch| && |d| == |ch|
    ensures |r| == |d|
    decreases rk[e], 1
  {
    ChildrenBelow(ch, rk, e);
    UpdatedList(ch, rk, d, d[e] + 1, ch[e], rk[e])
  }

  /** The loop of `update_children_depth` after it has visited `kids`, each of
      which is set to depth `v` before its own subtree is updated. */
  ghost function UpdatedList(ch: Children, rk: Ranks, d: Depths, v: nat,
                             kids: seq<EntityRef>, bound: nat): (r: Depths)
    requires Ranked(ch, rk) && |d| == |ch| && Below(ch, rk, kids, bound)
    ensures |r| == |d|
    decreases bound, 0, |kids|
  {
    if |kids| == 0 then d
    else
      var last := kids[|kids| - 1];
      assert last in kids;
      PrefixBelow(ch, rk, kids, bound);
      UpdatedDepths(ch, rk, UpdatedList(ch, rk, d, v, kids[..|kids| - 1], bound)[last := v], last)
  }

  // ---------------------------------------------------------------------------
  // Descendants

  /** The strict descendants of `x` through the children lists. */
  ghost function Desc(ch: Children, rk: Ranks, x: EntityRef): set<EntityRef>
    requires Ranked(ch, rk) && x < |ch|
    decreases rk[x], 1
  {
    ChildrenBelow(ch, rk, x);
    DescOf(ch, rk, ch[x], rk[x])
  }

  /** The entities of `kids` together with their descendants. */
  ghost function DescOf(ch: Children, rk: Ranks, kids: seq<EntityRef>, bound: nat): set<EntityRef>
    requires Ranked(ch, rk) && Below(ch, rk, kids, bound)
    decreases bound, 0, |kids|
  {
    if |kids| == 0 then {}
    else
      var last := kids[|kids| - 1];
      assert last in kids;
      PrefixBelow(ch, rk, kids, bound);
      DescOf(ch, rk, kids[..|kids| - 1], bound) + {last} + Desc(ch, rk, last)
  }

  /** `x` and its descendants. */
  ghost function Sub(ch: Children, rk: Ranks, x: EntityRef): set<EntityRef>
    requires Ranked(ch, rk) && x < |ch|
  {
    {x} + Desc(ch, rk, x)
  }

  /** Descendants are known entities of lower rank: an entity is never its own descendant. */
  lemma {:induction false} DescRank(ch: Children, rk: Ranks, x: EntityRef, y: EntityRef)
    requires Ranked(ch, rk) && x < |ch| && y in Desc(ch, rk, x)
    ensures y < |ch| && rk[y] < rk[x]
    decreases rk[x], 1
  {
    ChildrenBelow(ch, rk, x);
    DescOfRank(ch, rk, ch[x], rk[x], y);
  }

  /** An entity of higher rank is not in the subtree of `x`. */
  lemma HigherNotBelow(ch: Children, rk: Ranks, x: EntityRef, y: EntityRef)
    requires Ranked(ch, rk) && x < |ch| && y < |ch| && rk[x] < rk[y]
    ensures y !in Sub(ch, rk, x)
  {
    if y in Desc(ch, rk, x) {
      DescRank(ch, rk, x, y);
    }
  }

  lemma {:induction false} DescOfRank(ch: Children, rk: Ranks, kids: seq<EntityRef>, bound: nat, y: EntityRef)
    requires Ranked(ch, rk) && Below(ch, rk, kids, bound) && y in DescOf(ch, rk, kids, bound)
    ensures y < |ch| && rk[y] < bound
    decreases bound, 0, |kids|
  {
    var last := kids[|kids| - 1];
    assert last in kids;
    var pre := kids[..|kids| - 1];
    assert forall k :: k in pre ==> k in kids;
    if y in DescOf(ch, rk, pre, bound) {
      DescOfRank(ch, rk, pre, bound, y);
    } else if y != last {
      DescRank(ch, rk, last, y);
    }
  }

  /** Every descendant in a list of kids lies under one particular kid. */
  lemma {:induction false} DescOfWitness(ch: Children, rk: Ranks, kids: seq<EntityRef>, bound: nat, y: EntityRef)
      returns (j: nat)
    requires Ranked(ch, rk) && Below(ch, rk, kids, bound) && y in DescOf(ch, rk, kids, bound)
    ensures j < |kids| && kids[j] < |ch| && y in Sub(ch, rk, kids[j])
    decreases |kids|
  {
    var last := kids[|kids| - 1];
    assert last in kids;
    var pre := kids[..|kids| - 1];
    assert forall k :: k in pre ==> k in kids;
    if y in DescOf(ch, rk, pre, bound) {
      j := DescOfWitness(ch, rk, pre, bound, y);
      assert kids[j] == pre[j];
    } else {
      j := |kids| - 1;
    }
  }

  /** A set closed under the children lists contains all descendants of its members. */
  lemma {:induction false} ClosedContainsDesc(ch: Children, rk: Ranks, m: set<EntityRef>, x: EntityRef)
    requires Ranked(ch, rk) && x < |ch| && x in m
    requires forall y, i :: y < |ch| && y in m && 0 <= i < |ch[y]| ==> ch[y][i] in m
    ensures Desc(ch, rk, x) <= m
    decreases rk[x], 1
  {
    ChildrenBelow(ch, rk, x);
    ClosedContainsDescOf(ch, rk, m, ch[x], rk[x]);
  }

  lemma {:induction false} ClosedContainsDescOf(ch: Children, rk: Ranks, m: set<EntityRef>, kids: seq<EntityRef>, bound: nat)
    requires Ranked(ch, rk) && Below(ch, rk, kids, bound) && (forall k :: k in kids ==> k in m)
    requires forall y, i :: y < |ch| && y in m && 0 <= i < |ch[y]| ==> ch[y][i] in m
    ensures DescOf(ch, rk, kids, bound) <= m
    decreases bound, 0, |kids|
  {
    if |kids| > 0 {
      var last := kids[|kids| - 1];
      assert last in kids;
      PrefixBelow(ch, rk, kids, bound);
      ClosedContainsDescOf(ch, rk, m, kids[..|kids| - 1], bound);
      ClosedContainsDesc(ch, rk, m, last);
    }
  }

  // ---------------------------------------------------------------------------
  // Tree-shaped forests

  /** The children lists agree with the parent links and hold no duplicates:
      an entity is listed as a child of `x` exactly when `x` is its parent. */
  ghost predicate TreeShaped(ch: Children, par: Parents)
  {
    |par| == |ch| &&
    (forall x, i :: 0 <= x < |ch| && 0 <= i < |ch[x]| ==> ch[x][i] < |par| && par[ch[x][i]] == Some(x)) &&
    (forall y :: 0 <= y < |par| && par[y].Some? ==> par[y].value < |ch| && y in ch[par[y].value]) &&
    (forall x :: 0 <= x < |ch| ==> NoDup(ch[x]))
  }

  /** Cached depths agree with the parent links: a root has depth 0 and every
      other entity lies one below its parent. */
  ghost predicate DepthConsistent(par: Parents, d: Depths)
  {
    |d| == |par| &&
    forall x :: 0 <= x < |par| ==>
      (par[x].None? ==> d[x] == 0) &&
      (par[x].Some? ==> par[x].value < |d| && d[x] == d[par[x].value] + 1)
  }

  /** In a tree-shaped forest a descendant's parent is `x` itself or another descendant. */
  lemma {:induction false} DescParent(ch: Children, rk: Ranks, par: Parents, x: EntityRef, y: EntityRef)
    requires Ranked(ch, rk) && TreeShaped(ch, par) && x < |ch| && y in Desc(ch, rk, x)
    ensures y < |par| && par[y].Some? && par[y].value < |ch| && y in ch[par[y].value]
    ensures par[y].value == x || par[y].value in Desc(ch, rk, x)
  {
    ChildrenBelow(ch, rk, x);
    if y in ch[x] {
      var i :| 0 <= i < |ch[x]| && ch[x][i] == y;
    } else {
      DescOfParent(ch, rk, par, ch[x], rk[x], y);
    }
  }

  lemma {:induction false} DescOfParent(ch: Children, rk: Ranks, par: Parents, kids: seq<EntityRef>, bound: nat, y: EntityRef)
    requires Ranked(ch, rk) && TreeShaped(ch, par) && Below(ch, rk, kids, bound)
    requires y in DescOf(ch, rk, kids, bound) && y !in kids
    ensures y < |par| && par[y].Some? && par[y].value < |ch| && y in ch[par[y].value]
    ensures par[y].value in DescOf(ch, rk, kids, bound)
    decreases bound, |kids|
  {
    var last := kids[|kids| - 1];
    assert last in kids;
    PrefixBelow(ch, rk, kids, bound);
    var pre := kids[..|kids| - 1];
    if y in DescOf(ch, rk, pre, bound) {
      DescOfParent(ch, rk, par, pre, bound, y);
    } else {
      assert y in Desc(ch, rk, last);
      ChildrenBelow(ch, rk, last);
      if y in ch[last] {
        var i :| 0 <= i < |ch[last]| && ch[last][i] == y;
      } else {
        DescOfParent(ch, rk, par, ch[last], rk[last], y);
      }
    }
  }

  /** Two subtrees that share an entity are nested. */
  lemma {:induction false} SubOverlap(ch: Children, rk: Ranks, par: Parents, a: EntityRef, b: EntityRef, y: EntityRef)
    requires Ranked(ch, rk) && TreeShaped(ch, par) && a < |ch| && b < |ch|
    requires y in Sub(ch, rk, a) && y in Sub(ch, rk, b)
    ensures a in Sub(ch, rk, b) || b in Sub(ch, rk, a)
    decreases if y < |rk| && rk[y] <= rk[a] then rk[a] - rk[y] else 0
  {
    if y != a && y != b {
      DescRank(ch, rk, a, y);
      DescParent(ch, rk, par, a, y);
      DescParent(ch, rk, par, b, y);
      var p := par[y].value;
      var i :| 0 <= i < |ch[p]| && ch[p][i] == y;
      assert rk[y] < rk[p];
      if p != a {
        DescRank(ch, rk, a, p);
      }
      SubOverlap(ch, rk, par, a, b, p);
    }
  }

  /** The subtrees of two distinct children of one parent are disjoint. */
  lemma SiblingsDisjoint(ch: Children, rk: Ranks, par: Parents, e: EntityRef, c: EntityRef, c': EntityRef, y: EntityRef)
    requires Ranked(ch, rk) && TreeShaped(ch, par) && e < |ch| && c < |ch| && c' < |ch| && c != c'
    requires c < |par| && c' < |par| && par[c] == Some(e) && par[c'] == Some(e)
    requires rk[c] < rk[e] && rk[c'] < rk[e]
    ensures y !in Sub(ch, rk, c) || y !in Sub(ch, rk, c')
  {
    if y in Sub(ch, rk, c) && y in Sub(ch, rk, c') {
      SubOverlap(ch, rk, par, c, c', y);
      if c in Sub(ch, rk, c') {
        DescParent(ch, rk, par, c', c);
        DescRank(ch, rk, c', e);
      } else {
        DescParent(ch, rk, par, c, c');
        DescRank(ch, rk, c, e);
      }
    }
  }

  // ---------------------------------------------------------------------------
  // What update_children_depth guarantees

  /** Only the descendants of `e` get a new depth. */
  lemma {:induction false} UpdatedDepthsFrame(ch: Children, rk: Ranks, d: Depths, e: EntityRef, y: EntityRef)
    requires Ranked(ch, rk) && e < |ch| && |d| == |ch| && y < |d| && y !in Desc(ch, rk, e)
    ensures UpdatedDepths(ch, rk, d, e)[y] == d[y]
    decreases rk[e], 1
  {
    ChildrenBelow(ch, rk, e);
    UpdatedListFrame(ch, rk, d, d[e] + 1, ch[e], rk[e], y);
  }

  lemma {:induction false} UpdatedListFrame(ch: Children, rk: Ranks, d: Depths, v: nat,
                                            kids: seq<EntityRef>, bound: nat, y: EntityRef)
    requires Ranked(ch, rk) && |d| == |ch| && Below(ch, rk, kids, bound)
    requires y < |d| && y !in DescOf(ch, rk, kids, bound)
    ensures UpdatedList(ch, rk, d, v, kids, bound)[y] == d[y]
    decreases bound, 0, |kids|
  {
    if |kids| > 0 {
      var last := kids[|kids| - 1];
      assert last in kids;
      PrefixBelow(ch, rk, kids, bound);
      var pre := kids[..|kids| - 1];
      UpdatedListFrame(ch, rk, d, v, pre, bound, y);
      UpdatedDepthsFrame(ch, rk, UpdatedList(ch, rk, d, v, pre, bound)[last := v], last, y);
    }
  }

  /** In a tree-shaped forest, after `update_children_depth` on `x` every
      descendant of `x` lies exactly one below its parent. */
  lemma {:induction false} UpdatedDepthsConsistent(ch: Children, rk: Ranks, par: Parents, d: Depths, x: EntityRef)
    requires Ranked(ch, rk) && TreeShaped(ch, par) && x < |ch| && |d| == |ch|
    ensures UpdatedDepths(ch, rk, d, x)[x] == d[x]
    ensures forall y :: y in Desc(ch, rk, x) ==>
      y < |d| && y < |par| && par[y].Some? && par[y].value < |d| &&
      UpdatedDepths(ch, rk, d, x)[y] == UpdatedDepths(ch, rk, d, x)[par[y].value] + 1
    decreases rk[x], 1
  {
    ChildrenBelow(ch, rk, x);
    forall k | k in ch[x] ensures k < |par| && par[k] == Some(x) {
      var i :| 0 <= i < |ch[x]| && ch[x][i] == k;
    }
    UpdatedListConsistent(ch, rk, par, d, d[x] + 1, ch[x], x);
  }

  lemma {:induction false} UpdatedListConsistent(ch: Children, rk: Ranks, par: Parents, d: Depths, v: nat,
                                                 kids: seq<EntityRef>, e: EntityRef)
    requires Ranked(ch, rk) && TreeShaped(ch, par) && |d| == |ch| && e < |ch|
    requires Below(ch, rk, kids, rk[e]) && NoDup(kids) && v == d[e] + 1
    requires forall k :: k in kids ==> k < |par| && par[k] == Some(e)
    ensures UpdatedList(ch, rk, d, v, kids, rk[e])[e] == d[e]
    ensures forall y :: y in DescOf(ch, rk, kids, rk[e]) ==>
      y < |d| && y < |par| && par[y].Some? && par[y].value < |d| &&
      UpdatedList(ch, rk, d, v, kids, rk[e])[y] == UpdatedList(ch, rk, d, v, kids, rk[e])[par[y].value] + 1
    decreases rk[e], 0, |kids|
  {
    if |kids| > 0 {
      var last := kids[|kids| - 1];
      assert last in kids;
      var pre := kids[..|kids| - 1];
      assert forall k :: k in pre ==> k in kids;
      assert NoDup(pre);
      UpdatedListConsistent(ch, rk, par, d, v, pre, e);
      var d1 := UpdatedList(ch, rk, d, v, pre, rk[e]);
      var d2 := d1[last := v];
      var r := UpdatedDepths(ch, rk, d2, last);
      assert r == UpdatedList(ch, rk, d, v, kids, rk[e]);
      UpdatedDepthsConsistent(ch, rk, par, d2, last);
      if e in Desc(ch, rk, last) {
        DescRank(ch, rk, last, e);
      }
      UpdatedDepthsFrame(ch, rk, d2, last, e);
      assert r[e] == d[e];
      forall y | y in DescOf(ch, rk, kids, rk[e])
        ensures y < |d| && y < |par| && par[y].Some? && par[y].value < |d| && r[y] == r[par[y].value] + 1
      {
        DescOfRank(ch, rk, kids, rk[e], y);
        if y in DescOf(ch, rk, pre, rk[e]) {
          OutsideLast(ch, rk, par, pre, kids, e, y);
          UpdatedDepthsFrame(ch, rk, d2, last, y);
          var p := par[y].value;
          if y in pre {
            assert p == e;
          } else {
            DescOfParent(ch, rk, par, pre, rk[e], y);
            OutsideLast(ch, rk, par, pre, kids, e, p);
            UpdatedDepthsFrame(ch, rk, d2, last, p);
          }
        } else if y == last {
          if last in Desc(ch, rk, last) {
            DescRank(ch, rk, last, last);
          }
          UpdatedDepthsFrame(ch, rk, d2, last, last);
        }
      }
    }
  }

  /** A descendant reached through an earlier kid is outside the last kid's subtree. */
  lemma OutsideLast(ch: Children, rk: Ranks, par: Parents, pre: seq<EntityRef>, kids: seq<EntityRef>, e: EntityRef, y: EntityRef)
    requires Ranked(ch, rk) && TreeShaped(ch, par) && e < |ch|
    requires |kids| > 0 && pre == kids[..|kids| - 1] && NoDup(kids)
    requires Below(ch, rk, kids, rk[e]) && Below(ch, rk, pre, rk[e])
    requires forall k :: k in kids ==> k < |par| && par[k] == Some(e)
    requires y in DescOf(ch, rk, pre, rk[e])
    ensures kids[|kids| - 1] < |ch| && y != kids[|kids| - 1] && y !in Desc(ch, rk, kids[|kids| - 1])
  {
    var last := kids[|kids| - 1];
    assert last in kids;
    var j := DescOfWitness(ch, rk, pre, rk[e], y);
    assert pre[j] == kids[j] && j < |kids| - 1;
    assert pre[j] in kids;
    SiblingsDisjoint(ch, rk, par, e, pre[j], last, y);
  }

  // ---------------------------------------------------------------------------
  // Descendants are closed under the children lists

  lemma {:induction false} KidsInDescOf(ch: Children, rk: Ranks, kids: seq<EntityRef>, bound: nat, k: EntityRef)
    requires Ranked(ch, rk) && Below(ch, rk, kids, bound) && k in kids
    ensures k in DescOf(ch, rk, kids, bound)
    decreases |kids|
  {
    var pre := kids[..|kids| - 1];
    if k != kids[|kids| - 1] {
      assert k in pre by {
        var i :| 0 <= i < |kids| && kids[i] == k;
        assert pre[i] == k;
      }
      PrefixBelow(ch, rk, kids, bound);
      KidsInDescOf(ch, rk, pre, bound, k);
    }
  }

  lemma PrefixBelow(ch: Children, rk: Ranks, kids: seq<EntityRef>, bound: nat)
    requires Ranked(ch, rk) && Below(ch, rk, kids, bound) && |kids| > 0
    ensures Below(ch, rk, kids[..|kids| - 1], bound)
  {
    var pre := kids[..|kids| - 1];
    forall k | k in pre ensures k < |ch| && rk[k] < bound {
      var i :| 0 <= i < |pre| && pre[i] == k;
      assert kids[i] == k;
      assert k in kids;
    }
  }

  lemma {:induction false} DescTrans(ch: Children, rk: Ranks, x: EntityRef, q: EntityRef)
    requires Ranked(ch, rk) && x < |ch| && q in Desc(ch, rk, x)
    ensures q < |ch| && Desc(ch, rk, q) <= Desc(ch, rk, x)
    decreases rk[x], 1
  {
    ChildrenBelow(ch, rk, x);
    DescOfTrans(ch, rk, ch[x], rk[x], q);
  }

  lemma {:induction false} DescOfTrans(ch: Children, rk: Ranks, kids: seq<EntityRef>, bound: nat, q: EntityRef)
    requires Ranked(ch, rk) && Below(ch, rk, kids, bound) && q in DescOf(ch, rk, kids, bound)
    ensures q < |ch| && Desc(ch, rk, q) <= DescOf(ch, rk, kids, bound)
    decreases bound, 0, |kids|
  {
    var last := kids[|kids| - 1];
    assert last in kids;
    PrefixBelow(ch, rk, kids, bound);
    var pre := kids[..|kids| - 1];
    if q in DescOf(ch, rk, pre, bound) {
      DescOfTrans(ch, rk, pre, bound, q);
    } else if q != last {
      DescTrans(ch, rk, last, q);
    }
  }

  /** The descendants of `x` depend only on the children lists of the
      entities ranked no higher than `x`. */
  lemma {:induction false} DescFrame(ch: Children, ch': Children, rk: Ranks, x: EntityRef)
    requires Ranked(ch, rk) && Ranked(ch', rk) && x < |ch|
    requires forall y :: 0 <= y < |ch| && rk[y] <= rk[x] ==> ch'[y] == ch[y]
    ensures Desc(ch', rk, x) == Desc(ch, rk, x)
    decreases rk[x], 1
  {
    ChildrenBelow(ch, rk, x);
    DescOfFrame(ch, ch', rk, ch[x], rk[x]);
  }

  lemma {:induction false} DescOfFrame(ch: Children, ch': Children, rk: Ranks, kids: seq<EntityRef>, bound: nat)
    requires Ranked(ch, rk) && Ranked(ch', rk) && Below(ch, rk, kids, bound)
    requires forall y :: 0 <= y < |ch| && rk[y] < bound ==> ch'[y] == ch[y]
    ensures Below(ch', rk, kids, bound) && DescOf(ch', rk, kids, bound) == DescOf(ch, rk, kids, bound)
    decreases bound, 0, |kids|
  {
    if |kids| > 0 {
      var last := kids[|kids| - 1];
      assert last in kids;
      PrefixBelow(ch, rk, kids, bound);
      DescOfFrame(ch, ch', rk, kids[..|kids| - 1], bound);
      DescFrame(ch, ch', rk, last);
    }
  }

  /** A child of an entity of the subtree of `c` is a descendant of `c`. */
  lemma ChildOfSub(ch: Children, rk: Ranks, c: EntityRef, q: EntityRef, y: EntityRef)
    requires Ranked(ch, rk) && c < |ch| && q in Sub(ch, rk, c) && q < |ch| && y in ch[q]
    ensures y in Desc(ch, rk, c)
  {
    ChildrenBelow(ch, rk, q);
    KidsInDescOf(ch, rk, ch[q], rk[q], y);
    if q != c {
      DescTrans(ch, rk, c, q);
    }
  }

  /** A new leaf keeps the hierarchy ranked, tree-shaped and depth-consistent. */
  lemma AppendLeaf(ch: Children, rk: Ranks, par: Parents, d: Depths, r: nat)
    requires Ranked(ch, rk)
    ensures Ranked(ch + [[]], rk + [r])
    ensures TreeShaped(ch, par) ==> TreeShaped(ch + [[]], par + [None])
    ensures DepthConsistent(par, d) ==> DepthConsistent(par + [None], d + [0])
  {
    var ch', par' := ch + [[]], par + [None];
    if TreeShaped(ch, par) {
      forall x | 0 <= x < |ch'|
        ensures NoDup(ch'[x])
      {
        if x < |ch| { assert ch'[x] == ch[x]; }
      }
    }
  }

  // ---------------------------------------------------------------------------
  // add_child and detach

  /** The children lists once `x` has left the list of its parent (its first
      occurrence there), as `detach` does. */
  ghost function DetachedChildren(ch: Children, par: Parents, x: EntityRef): Children
    requires x < |par| && (par[x].Some? ==> par[x].value < |ch|)
  {
    match par[x]
    case None => ch
    case Some(q) => ch[q := RemoveFirst<EntityRef>(ch[q], x)]
  }

  /** Detaching `x` changes no children list ranked at or below `x`: a list
      that could hold `x` belongs to an entity ranked above it. */
  lemma DetachedLow(ch: Children, rk: Ranks, par: Parents, x: EntityRef)
    requires Ranked(ch, rk) && x < |ch| && x < |par| && (par[x].Some? ==> par[x].value < |ch|)
    ensures var ch' := DetachedChildren(ch, par, x);
      |ch'| == |ch| && forall y :: 0 <= y < |ch| && rk[y] <= rk[x] ==> ch'[y] == ch[y]
  {
    if par[x].Some? {
      var q := par[x].value;
      if rk[q] <= rk[x] {
        assert forall i :: 0 <= i < |ch[q]| ==> ch[q][i] != x;
        RemoveFirstSpec(ch[q], x);
      }
    }
  }

  /** Appending `c` to the children of `p`, which ranks above it, keeps the lists ranked. */
  lemma AttachRanked(ch: Children, rk: Ranks, p: EntityRef, c: EntityRef)
    requires Ranked(ch, rk) && p < |ch| && c < |ch| && rk[c] < rk[p]
    ensures Ranked(ch[p := ch[p] + [c]], rk)
  {
    var ch' := ch[p := ch[p] + [c]];
    forall x, i | 0 <= x < |ch'| && 0 <= i < |ch'[x]|
      ensures ch'[x][i] < |ch| && rk[ch'[x][i]] < rk[x]
    {
      if x != p || i < |ch[p]| {
        assert ch'[x][i] == ch[x][i];
      }
    }
  }

  /** Appending `c`, which has no parent, to the children of `p` keeps the
      lists tree-shaped once `p` is recorded as the parent of `c`. */
  lemma AttachShaped(ch: Children, par: Parents, p: EntityRef, c: EntityRef)
    requires TreeShaped(ch, par) && p < |ch| && c < |ch| && par[c] == None
    ensures TreeShaped(ch[p := ch[p] + [c]], par[c := Some(p)])
  {
    var ch', par' := ch[p := ch[p] + [c]], par[c := Some(p)];
    assert forall i :: 0 <= i < |ch[p]| ==> ch[p][i] != c;
    forall x, i | 0 <= x < |ch'| && 0 <= i < |ch'[x]|
      ensures ch'[x][i] < |par'| && par'[ch'[x][i]] == Some(x)
    {
      if x != p || i < |ch[p]| {
        assert ch'[x][i] == ch[x][i];
      }
    }
    forall y | 0 <= y < |par'| && par'[y].Some?
      ensures par'[y].value < |ch'| && y in ch'[par'[y].value]
    {
      if y != c {
        assert y in ch[par[y].value];
      }
    }
    forall x | 0 <= x < |ch'|
      ensures NoDup(ch'[x])
    {
      assert x != p ==> ch'[x] == ch[x];
    }
  }

  /** `detach` keeps the lists ranked: a list only loses an entry. */
  lemma DetachRanked(ch: Children, rk: Ranks, par: Parents, x: EntityRef)
    requires Ranked(ch, rk) && x < |par| && (par[x].Some? ==> par[x].value < |ch|)
    ensures Ranked(DetachedChildren(ch, par, x), rk)
  {
    if par[x].Some? {
      var q := par[x].value;
      var ch' := DetachedChildren(ch, par, x);
      forall z, i | 0 <= z < |ch'| && 0 <= i < |ch'[z]|
        ensures ch'[z][i] < |ch| && rk[ch'[z][i]] < rk[z]
      {
        if z == q {
          var y := ch'[q][i];
          RemoveFirstSubset(ch[q], x, y);
          var j :| 0 <= j < |ch[q]| && ch[q][j] == y;
        } else {
          assert ch'[z][i] == ch[z][i];
        }
      }
    }
  }

  /** `detach` keeps the lists tree-shaped once `x` records no parent. */
  lemma DetachShaped(ch: Children, par: Parents, x: EntityRef)
    requires TreeShaped(ch, par) && x < |ch|
    ensures TreeShaped(DetachedChildren(ch, par, x), par[x := None])
  {
    if par[x].Some? {
      var q := par[x].value;
      var ch', par' := DetachedChildren(ch, par, x), par[x := None];
      RemoveFirstNoDup(ch[q], x);
      forall i | 0 <= i < |ch'[q]|
        ensures ch'[q][i] < |par'| && par'[ch'[q][i]] == Some(q)
      {
        var y := ch'[q][i];
        RemoveFirstSubset(ch[q], x, y);
        var j :| 0 <= j < |ch[q]| && ch[q][j] == y;
      }
      assert forall z, i :: 0 <= z < |ch'| && z != q && 0 <= i < |ch'[z]| ==> ch'[z][i] == ch[z][i];
      forall y | 0 <= y < |par'| && par'[y].Some?
        ensures par'[y].value < |ch'| && y in ch'[par'[y].value]
      {
        if par[y].value == q {
          RemoveFirstOthers(ch[q], x, y);
        }
      }
    }
  }

  /** Giving `x` the parent `px` (or none) and the depth `v` one below it (or 0)
      and then updating the subtree of `x` leaves every cached depth
      consistent, when all depths but that of `x` were. */
  lemma ReattachDepths(ch: Children, rk: Ranks, par: Parents, d: Depths, x: EntityRef,
                       px: Option<EntityRef>, v: nat)
    requires Ranked(ch, rk) && TreeShaped(ch, par) && x < |ch| && |d| == |ch|
    requires forall y :: 0 <= y < |par| && y != x ==>
      (par[y].None? ==> d[y] == 0) && (par[y].Some? ==> par[y].value < |d| && d[y] == d[par[y].value] + 1)
    requires px.None? ==> v == 0
    requires px.Some? ==> px.value < |ch| && px.value !in Sub(ch, rk, x) && v == d[px.value] + 1
    ensures DepthConsistent(par[x := px], UpdatedDepths(ch, rk, d[x := v], x))
  {
    var d1 := d[x := v];
    var d' := UpdatedDepths(ch, rk, d1, x);
    var par' := par[x := px];
    UpdatedDepthsConsistent(ch, rk, par, d1, x);
    forall y | 0 <= y < |par'|
      ensures par'[y].None? ==> d'[y] == 0
      ensures par'[y].Some? ==> par'[y].value < |d'| && d'[y] == d'[par'[y].value] + 1
    {
      if y == x {
        if px.Some? {
          UpdatedDepthsFrame(ch, rk, d1, x, px.value);
        }
      } else if y !in Desc(ch, rk, x) {
        UpdatedDepthsFrame(ch, rk, d1, x, y);
        if par[y].Some? {
          var q := par[y].value;
          assert y in ch[q];
          if q in Sub(ch, rk, x) {
            ChildOfSub(ch, rk, x, q, y);
          }
          UpdatedDepthsFrame(ch, rk, d1, x, q);
        }
      }
    }
  }
}
