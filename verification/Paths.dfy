/** Which directories can be reached from the root. A rename may hang a directory under itself: nothing in
    `fat_rename` looks for that (kernel/fat32.c:1338-1410). */
module Paths {
  import opened Geometry
  import opened LongNames
  import opened Edits
  import opened Ownership
  import opened World

  /** The entry at `r` is that of directory `d`. */
  ghost predicate Enters(t: Tree, r: Ref, d: nat) {
    && r.dir in t && r.at in t[r.dir] && d in t
    && t[r.dir][r.at].isDir && t[r.dir][r.at].cluster == d
  }

  ghost predicate Child(t: Tree, a: nat, d: nat) {
    exists at: nat :: Enters(t, Ref(a, at), d)
  }

  ghost predicate IsPath(t: Tree, p: seq<nat>) {
    p != [] && p[0] in t && forall i :: 0 <= i < |p| - 1 ==> Child(t, p[i], p[i + 1])
  }

  /** Directory `d` is `a` or lies somewhere under it. */
  ghost predicate Under(t: Tree, a: nat, d: nat) {
    exists p :: IsPath(t, p) && p[0] == a && p[|p| - 1] == d
  }

  // Predicates quantified over one of these stay folded in a proof until it mentions that token.
  ghost predicate Explored(n: int) { true }
  ghost predicate Parented(n: int) { true }

  /** Every directory can be reached from the root; folded behind `Explored`. */
  ghost predicate Connected(t: Tree, root: nat) {
    root in t && forall n: int :: Explored(n) ==> forall d :: d in t ==> Under(t, root, d)
  }

  /** No directory has two entries, the root none; folded behind `Parented`. */
  ghost predicate Sole(t: Tree, root: nat) {
    forall n: int :: Parented(n) ==>
      && (forall r, q, d :: Enters(t, r, d) && Enters(t, q, d) ==> r == q)
      && (forall r :: !Enters(t, r, root))
  }

  lemma UnderSelf(t: Tree, a: nat)
    requires a in t
    ensures Under(t, a, a)
  {
    assert IsPath(t, [a]);
  }

  lemma UnderChild(t: Tree, a: nat, b: nat, d: nat)
    requires Under(t, a, b) && Child(t, b, d)
    ensures Under(t, a, d)
  {
    var p :| IsPath(t, p) && p[0] == a && p[|p| - 1] == b;
    assert IsPath(t, p + [d]);
  }

  /** What lies under `a` is in every set that holds `a` and with a directory all those it lists. */
  lemma {:induction false} Closed(t: Tree, a: nat, d: nat, x: set<nat>)
    requires Under(t, a, d) && a in x
    requires forall b, c :: b in x && Child(t, b, c) ==> c in x
    ensures d in x
  {
    var p :| IsPath(t, p) && p[0] == a && p[|p| - 1] == d;
    Along(t, p, x, |p| - 1);
  }

  lemma {:induction false} Along(t: Tree, p: seq<nat>, x: set<nat>, i: nat)
    requires IsPath(t, p) && p[0] in x && i < |p|
    requires forall b, c :: b in x && Child(t, b, c) ==> c in x
    ensures p[i] in x
  {
    if i > 0 {
      Along(t, p, x, i - 1);
    }
  }

  ghost function Reach(t: Tree, a: nat): set<nat> {
    set d | d in t && Under(t, a, d)
  }

  /** A directory under another is that one or listed by one under it. */
  lemma UnderLast(t: Tree, a: nat, d: nat)
    requires Under(t, a, d) && d != a
    ensures exists b :: Under(t, a, b) && Child(t, b, d)
  {
    var p :| IsPath(t, p) && p[0] == a && p[|p| - 1] == d;
    var q := p[..|p| - 1];
    assert IsPath(t, q);
    assert Under(t, a, q[|q| - 1]) && Child(t, q[|q| - 1], d);
  }

  /** The same directories under the same entries: the same can be reached. */
  ghost predicate SameEntries(t: Tree, u: Tree) {
    u.Keys == t.Keys && forall r, d :: Enters(u, r, d) <==> Enters(t, r, d)
  }

  lemma SameUnder(t: Tree, u: Tree, a: nat)
    requires SameEntries(t, u)
    ensures forall d :: Under(u, a, d) <==> Under(t, a, d)
  {
    forall x, y ensures Child(u, x, y) <==> Child(t, x, y) {
    }
    forall p ensures IsPath(u, p) <==> IsPath(t, p) {
    }
  }

  lemma SameConnected(t: Tree, u: Tree, root: nat)
    requires SameEntries(t, u)
    ensures Connected(u, root) <==> Connected(t, root)
  {
    assert Explored(0);
    SameUnder(t, u, root);
  }

  /** A new directory, listed by one that is there. */
  lemma StillConnected(t: Tree, u: Tree, root: nat, q: Ref, v: nat)
    requires Connected(t, root) && q.dir in t && u.Keys == t.Keys + {v} && Enters(u, q, v)
    requires forall r, d :: Enters(t, r, d) ==> Enters(u, r, d)
    ensures Connected(u, root)
  {
    assert Explored(0);
    var x := Reach(u, root);
    UnderSelf(u, root);
    forall b, c | b in x && Child(t, b, c) ensures c in x {
      var at: nat :| Enters(t, Ref(b, at), c);
      assert Enters(u, Ref(b, at), c);
      UnderChild(u, root, b, c);
    }
    forall d | d in t ensures Under(u, root, d) {
      Closed(t, root, d, x);
    }
    assert Enters(u, Ref(q.dir, q.at), v);
    UnderChild(u, root, q.dir, v);
  }

  /** A directory that lists none goes. */
  lemma GoneConnected(t: Tree, u: Tree, root: nat, r: Ref, v: nat)
    requires Connected(t, root) && Sole(t, root) && Enters(t, r, v) && u.Keys == t.Keys - {v}
    requires forall q, d :: Enters(t, q, d) ==> q.dir != v
    requires forall q, d :: Enters(t, q, d) && q != r ==> Enters(u, q, d)
    ensures Connected(u, root)
  {
    assert Parented(0);
    assert Explored(0);
    assert v != root;
    var x := Reach(u, root) + {v};
    UnderSelf(u, root);
    forall b, c | b in x && Child(t, b, c) ensures c in x {
      var at: nat :| Enters(t, Ref(b, at), c);
      if c != v {
        assert Enters(u, Ref(b, at), c);
        UnderChild(u, root, b, c);
      }
    }
    forall d | d in u ensures Under(u, root, d) {
      Closed(t, root, d, x);
    }
  }

  /** The entry of directory `v` moves from `r` to `q`. */
  ghost predicate Moves(t: Tree, u: Tree, r: Ref, q: Ref, v: nat) {
    && u.Keys == t.Keys && q.dir in t && Enters(t, r, v)
    && forall x, d :: Enters(u, x, d) <==> (x == q && d == v) || (x != r && Enters(t, x, d))
  }

  /** Every directory can still be reached exactly if the one that moved did not come to lie under itself. */
  lemma MovedConnected(t: Tree, u: Tree, root: nat, r: Ref, q: Ref, v: nat)
    requires Connected(t, root) && Sole(t, root) && Moves(t, u, r, q, v)
    ensures Connected(u, root) <==> !Under(t, v, q.dir)
  {
    assert Explored(0);
    if Under(t, v, q.dir) {
      Detached(t, u, root, r, q, v);
    } else {
      StillReached(t, u, root, r, q, v);
    }
  }

  /** Under itself it cannot be reached: no path from the root leads into what lies below it. */
  lemma Detached(t: Tree, u: Tree, root: nat, r: Ref, q: Ref, v: nat)
    requires root in t && Sole(t, root) && Moves(t, u, r, q, v) && Under(t, v, q.dir)
    ensures !Under(u, root, v)
  {
    assert Parented(0);
    var below := Reach(t, v);
    var rest := t.Keys - below;
    assert root in rest by {
      if root in below {
        UnderLast(t, v, root);
      }
    }
    forall b, c | b in rest && Child(u, b, c) ensures c in rest {
      var at: nat :| Enters(u, Ref(b, at), c);
      if c in below {
        EntersBelow(t, root, r, v, Ref(b, at), c);
      }
    }
    if Under(u, root, v) {
      Closed(u, root, v, rest);
      UnderSelf(t, v);
    }
  }

  /** The only way into what lies below a directory is its own entry. */
  lemma EntersBelow(t: Tree, root: nat, r: Ref, v: nat, x: Ref, c: nat)
    requires Sole(t, root) && Enters(t, r, v) && Enters(t, x, c) && Under(t, v, c) && x != r
    ensures Under(t, v, x.dir)
  {
    assert Parented(0);
    if c != v {
      UnderLast(t, v, c);
      var b :| Under(t, v, b) && Child(t, b, c);
      var at: nat :| Enters(t, Ref(b, at), c);
      assert x == Ref(b, at);
    }
  }

  lemma StillReached(t: Tree, u: Tree, root: nat, r: Ref, q: Ref, v: nat)
    requires Connected(t, root) && Moves(t, u, r, q, v) && !Under(t, v, q.dir)
    ensures Connected(u, root)
  {
    assert Explored(0);
    var x := Reach(u, root);
    UnderSelf(u, root);
    UnderSelf(t, v);
    forall b, c | b in x + Reach(t, v) && Child(t, b, c) ensures c in x + Reach(t, v) {
      var at: nat :| Enters(t, Ref(b, at), c);
      if Under(t, v, b) {
        UnderChild(t, v, b, c);
      } else if Ref(b, at) != r {
        assert Enters(u, Ref(b, at), c);
        UnderChild(u, root, b, c);
      }
    }
    Closed(t, root, q.dir, x + Reach(t, v));
    assert Enters(u, Ref(q.dir, q.at), v);
    UnderChild(u, root, q.dir, v);
    forall b, c | b in x && Child(t, b, c) ensures c in x {
      var at: nat :| Enters(t, Ref(b, at), c);
      if Ref(b, at) != r {
        assert Enters(u, Ref(b, at), c);
        UnderChild(u, root, b, c);
      }
    }
    forall d | d in t ensures Under(u, root, d) {
      Closed(t, root, d, x);
    }
  }

  // ---------------------------------------------------------------- what the operations do to the tree

  /** A file comes, or changes. */
  lemma FilePut(s: State, r: Ref, rec: Record)
    requires r.dir in s.tree && !rec.isDir && (Has(s, r) ==> !Rec(s, r).isDir)
    ensures SameEntries(s.tree, Noted(s, r, rec).tree)
  {
    forall x, d ensures Enters(Noted(s, r, rec).tree, x, d) <==> Enters(s.tree, x, d) {
      assert x == Ref(x.dir, x.at);
    }
  }

  /** A file goes. */
  lemma FileCut(s: State, r: Ref)
    requires r.dir in s.tree && (Has(s, r) ==> !Rec(s, r).isDir)
    ensures SameEntries(s.tree, Dropped(s, r).tree)
  {
    forall x, d ensures Enters(Dropped(s, r).tree, x, d) <==> Enters(s.tree, x, d) {
    }
  }

  /** A directory is made. */
  lemma DirPut(s: State, q: Ref, rec: Record)
    requires q.dir in s.tree && !Has(s, q) && rec.isDir && rec.cluster !in s.tree
    ensures Connected(s.tree, s.root) ==> Connected(Noted(s, q, rec).tree[rec.cluster := map[]], s.root)
  {
    if Connected(s.tree, s.root) {
      StillConnected(s.tree, Noted(s, q, rec).tree[rec.cluster := map[]], s.root, q, rec.cluster);
    }
  }

  /** An empty directory is removed. */
  lemma DirCut(g: Geometry, s: State, r: Ref)
    requires Shape(g, s, {}) && Has(s, r) && Rec(s, r).isDir && Rec(s, r).cluster in s.tree
    requires s.tree[Rec(s, r).cluster] == map[]
    ensures Connected(s.tree, s.root) ==> Connected(Dropped(s, r).tree - {Rec(s, r).cluster}, s.root)
  {
    SoleTree(g, s);
    if Connected(s.tree, s.root) {
      assert Parented(0);
      var v := Rec(s, r).cluster;
      var u := Dropped(s, r).tree - {v};
      forall q, d | Enters(s.tree, q, d) && q != r ensures Enters(u, q, d) {
        assert q == Ref(q.dir, q.at) && d != v;
      }
      GoneConnected(s.tree, u, s.root, r, v);
    }
  }

  /** A node moves: all stays connected, unless it is a directory that comes to lie under itself. */
  lemma NodeMoved(g: Geometry, s: State, r: Ref, q: Ref, rec: Record)
    requires Shape(g, s, {}) && Has(s, r) && q.dir in s.tree && !Has(s, q)
    requires rec.isDir == Rec(s, r).isDir && rec.cluster == Rec(s, r).cluster
    ensures Connected(s.tree, s.root) ==>
      (Connected(Dropped(Noted(s, q, rec), r).tree, s.root) <==> !(rec.isDir && Under(s.tree, rec.cluster, q.dir)))
  {
    var u := Dropped(Noted(s, q, rec), r).tree;
    if rec.isDir {
      SoleTree(g, s);
      forall x, d ensures Enters(u, x, d) <==> (x == q && d == rec.cluster) || (x != r && Enters(s.tree, x, d)) {
        assert x == Ref(x.dir, x.at);
      }
      if Connected(s.tree, s.root) {
        MovedConnected(s.tree, u, s.root, r, q, rec.cluster);
      }
    } else {
      FilePut(s, q, rec);
      FileCut(Noted(s, q, rec), r);
      SameConnected(s.tree, u, s.root);
    }
  }

  /** On a volume the tree has that form: every directory but the root has one entry. */
  lemma SoleTree(g: Geometry, s: State)
    requires Shape(g, s, {})
    ensures Sole(s.tree, s.root)
    ensures forall r :: Has(s, r) && Rec(s, r).isDir ==> Enters(s.tree, r, Rec(s, r).cluster)
  {
    assert Shaped(0);
    forall r, d | Enters(s.tree, r, d) ensures IsSub(s, {}, r) && Rec(s, r).cluster == d && d != s.root {
      assert Has(s, r) && NodeOk(g, s, r);
    }
    forall r | Has(s, r) && Rec(s, r).isDir ensures Enters(s.tree, r, Rec(s, r).cluster) {
      assert NodeOk(g, s, r);
    }
  }
}
