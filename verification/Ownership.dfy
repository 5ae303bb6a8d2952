/** All chains of a volume together: which belongs to what, that no two share a cluster, and that every
    cluster is free, owned, or was lost before the volume was mounted. */
module Ownership {
  import opened Geometry
  import opened Chains
  import opened Evolution
  import opened Allocation

  /** A node by the first cluster of its directory and the index of its short entry there. */
  datatype Ref = Ref(dir: nat, at: nat)

  /** What a chain belongs to; `Spare` is a chain that an operation holds and no entry points at. */
  datatype Owner = OfDir(first: nat) | OfFile(ref: Ref) | Spare

  type Chained = map<Owner, seq<nat>>

  // Predicates quantified over one of these stay folded in a proof until it mentions that token.
  ghost predicate Planted(n: int) { true }
  ghost predicate Counted(n: int) { true }

  /** Every chain is well formed and no two meet. */
  ghost predicate Forest(t: Table, chains: Chained) {
    forall n: int :: Planted(n) ==> ForestFacts(t, chains)
  }

  ghost predicate ForestFacts(t: Table, chains: Chained) {
    && (forall o :: o in chains ==> Owns(t, chains[o]))
    && (forall o, p :: o in chains && p in chains && o != p ==> Disjoint(chains[o], chains[p]))
  }

  lemma ForestOwns(t: Table, chains: Chained, o: Owner)
    requires Forest(t, chains) && o in chains
    ensures Owns(t, chains[o])
  {
    assert Planted(0);
  }

  lemma ForestApart(t: Table, chains: Chained, o: Owner, p: Owner)
    requires Forest(t, chains) && o in chains && p in chains && o != p
    ensures Disjoint(chains[o], chains[p])
  {
    assert Planted(0);
  }

  /** What is done to one chain leaves every other chain whole. */
  lemma OtherChain(t: Table, chains: Chained, x: Owner, u: Table, ch: seq<nat>, y: Owner)
    requires Forest(t, chains) && x in chains && y in chains && x != y && Within(t, chains[x], u, ch)
    ensures Owns(u, chains[y]) && Disjoint(chains[y], ch) && Disjoint(ch, chains[y])
    ensures forall c :: c in chains[y] ==> 2 <= c < |t| && t[c] != 0 && c !in chains[x]
  {
    ForestOwns(t, chains, y);
    ForestApart(t, chains, y, x);
    if chains[y] != [] {
      ChainNonZero(t, chains[y]);
      ChainFrame(t, u, chains[y]);
    }
  }

  lemma ForestStep(t: Table, chains: Chained, x: Owner, u: Table, ch: seq<nat>)
    requires Forest(t, chains) && x in chains && Within(t, chains[x], u, ch) && Owns(u, ch)
    ensures Forest(u, chains[x := ch])
  {
    var after := chains[x := ch];
    forall o | o in after ensures Owns(u, after[o]) {
      if o != x {
        OtherChain(t, chains, x, u, ch, o);
      }
    }
    forall o, p | o in after && p in after && o != p ensures Disjoint(after[o], after[p]) {
      if o == x {
        OtherChain(t, chains, x, u, ch, p);
      } else if p == x {
        OtherChain(t, chains, x, u, ch, o);
      } else {
        ForestApart(t, chains, o, p);
      }
    }
  }

  /** While a chain is taken apart the others stand. */
  lemma ForestWithout(t: Table, chains: Chained, x: Owner, u: Table, ch: seq<nat>)
    requires Forest(t, chains) && x in chains && Within(t, chains[x], u, ch)
    ensures Forest(u, chains[x := []])
  {
    assert Within(t, chains[x], u, []);
    ForestStep(t, chains, x, u, []);
  }

  ghost predicate Owned(chains: Chained, c: nat) {
    exists o :: o in chains && c in chains[o]
  }

  /** Every cluster is free, lost, or owned, and only one of these. */
  ghost predicate Accounts(t: Table, chains: Chained, lost: set<nat>) {
    forall n: int :: Counted(n) ==> forall c :: 2 <= c < |t| ==>
      && (t[c] == 0 <==> c !in lost && !Owned(chains, c))
      && (c in lost ==> !Owned(chains, c))
  }

  lemma EqualSize<T>(a: set<T>, b: set<T>)
    requires a <= b && |a| == |b|
    ensures a == b
  {
    if x :| x in b && x !in a {
      SubsetCard(a, b - {x});
    }
  }

  /** Taking `ch` for `cs` without losing count: exactly the old clusters that were not kept are free. */
  lemma NoLeak(t: Table, cs: seq<nat>, u: Table, ch: seq<nat>)
    requires Within(t, cs, u, ch) && Owns(t, cs) && Owns(u, ch) && FreeCount(u) + |ch| == FreeCount(t) + |cs|
    ensures FreeSet(u) == FreeSet(t) + Elems(cs) - Elems(ch)
  {
    var f, k, h := FreeSet(t), Elems(cs), Elems(ch);
    assert |k| == |cs| && |h| == |ch| by {
      if cs != [] {
        ChainAcyclic(t, cs);
      }
      if ch != [] {
        ChainAcyclic(u, ch);
      }
      SeqCard(cs);
      SeqCard(ch);
    }
    assert f !! k && h <= f + k && FreeSet(u) !! h by {
      if cs != [] {
        ChainNonZero(t, cs);
      }
      if ch != [] {
        ChainNonZero(u, ch);
      }
    }
    assert |f + k| == |f| + |k|;
    assert (f + k - h) !! h && f + k == (f + k - h) + h;
    assert |f + k - h| == |f + k| - |h|;
    assert FreeSet(u) <= f + k - h;
    EqualSize(FreeSet(u), f + k - h);
  }

  lemma OwnedElsewhere(t: Table, chains: Chained, x: Owner, ch: seq<nat>, c: nat)
    requires Forest(t, chains) && x in chains
    ensures c !in ch && c in chains[x] ==> !Owned(chains[x := ch], c)
    ensures c !in chains[x] && c !in ch ==> (Owned(chains[x := ch], c) <==> Owned(chains, c))
    ensures c in ch ==> Owned(chains[x := ch], c)
  {
    var after := chains[x := ch];
    if c in ch {
      assert x in after && c in after[x];
    } else if c in chains[x] {
      forall o | o in after && c in after[o] ensures false {
        ForestApart(t, chains, x, o);
      }
    } else {
      if Owned(after, c) {
        var o :| o in after && c in after[o];
        assert o in chains && c in chains[o];
      }
      if Owned(chains, c) {
        var o :| o in chains && c in chains[o];
        assert o in after && c in after[o];
      }
    }
  }

  lemma AccountsStep(t: Table, chains: Chained, lost: set<nat>, x: Owner, u: Table, ch: seq<nat>)
    requires Forest(t, chains) && Accounts(t, chains, lost) && x in chains && Within(t, chains[x], u, ch) && Owns(u, ch)
    requires FreeCount(u) + |ch| == FreeCount(t) + |chains[x]|
    ensures Accounts(u, chains[x := ch], lost)
  {
    ForestOwns(t, chains, x);
    NoLeak(t, chains[x], u, ch);
    forall c | 2 <= c < |u|
      ensures u[c] == 0 <==> c !in lost && !Owned(chains[x := ch], c)
      ensures c in lost ==> !Owned(chains[x := ch], c)
    {
      assert Counted(0);
      assert u[c] == 0 <==> c in FreeSet(u);
      assert t[c] == 0 <==> c in FreeSet(t);
      OwnedElsewhere(t, chains, x, ch, c);
      assert c in chains[x] ==> Owned(chains, c);
    }
  }

  /** The chain of `x` becomes the chain of `y`. */
  ghost function Rekey(chains: Chained, x: Owner, y: Owner): Chained
    requires x in chains
  {
    (if x == Spare then chains[Spare := []] else chains - {x})[y := chains[x]]
  }

  lemma Rekeyed(t: Table, chains: Chained, lost: set<nat>, x: Owner, y: Owner)
    requires Forest(t, chains) && Accounts(t, chains, lost) && x in chains && x != y
    requires y in chains ==> chains[y] == []
    ensures Forest(t, Rekey(chains, x, y)) && Accounts(t, Rekey(chains, x, y), lost)
  {
    var after := Rekey(chains, x, y);
    forall o | o in after ensures Owns(t, after[o]) {
      ForestOwns(t, chains, x);
      if o != y && o != x {
        ForestOwns(t, chains, o);
      }
    }
    forall o, p | o in after && p in after && o != p ensures Disjoint(after[o], after[p]) {
      RekeyApart(t, chains, x, y, o, p);
    }
    forall c ensures Owned(after, c) <==> Owned(chains, c) {
      RekeyOwned(chains, x, y, c);
    }
    assert Counted(0);
  }

  lemma RekeyApart(t: Table, chains: Chained, x: Owner, y: Owner, o: Owner, p: Owner)
    requires Forest(t, chains) && x in chains && x != y && (y in chains ==> chains[y] == [])
    requires o in Rekey(chains, x, y) && p in Rekey(chains, x, y) && o != p
    ensures Disjoint(Rekey(chains, x, y)[o], Rekey(chains, x, y)[p])
  {
    var o', p' := if o == y then x else o, if p == y then x else p;
    if o' != p' {
      ForestApart(t, chains, o', p');
    }
  }

  lemma RekeyOwned(chains: Chained, x: Owner, y: Owner, c: nat)
    requires x in chains && x != y && (y in chains ==> chains[y] == [])
    ensures Owned(Rekey(chains, x, y), c) <==> Owned(chains, c)
  {
    var after := Rekey(chains, x, y);
    if Owned(after, c) {
      var o :| o in after && c in after[o];
      assert c in chains[if o == y then x else o];
    }
    if Owned(chains, c) {
      var o :| o in chains && c in chains[o];
      var p := if o == x then y else o;
      assert p in after && c in after[p];
    }
  }

  /** The clusters of all chains. */
  ghost function OwnedSet(limit: nat, chains: Chained): set<nat> {
    set c: nat | 2 <= c < limit && Owned(chains, c)
  }

  ghost function Pick(chains: Chained): (o: Owner)
    requires chains != map[]
    ensures o in chains
  {
    var o :| o in chains;
    o
  }

  /** The lengths of all chains together. */
  ghost function Total(chains: Chained): nat
    decreases |chains|
  {
    if chains == map[] then 0 else |chains[Pick(chains)]| + Total(chains - {Pick(chains)})
  }

  /** Chains that do not meet and visit no cluster twice own as many clusters as they are long. */
  lemma {:induction false} TotalIs(t: Table, chains: Chained)
    requires Forest(t, chains)
    ensures |OwnedSet(|t|, chains)| == Total(chains)
    decreases |chains|
  {
    assert Planted(0);
    if chains == map[] {
      assert OwnedSet(|t|, chains) == {};
    } else {
      var o := Pick(chains);
      var cs, rest := chains[o], chains - {o};
      TotalIs(t, rest);
      if cs != [] {
        ChainAcyclic(t, cs);
      }
      SeqCard(cs);
      OwnedSplit(t, chains, o);
    }
  }

  lemma OwnedSplit(t: Table, chains: Chained, o: Owner)
    requires Forest(t, chains) && o in chains
    ensures OwnedSet(|t|, chains) == Elems(chains[o]) + OwnedSet(|t|, chains - {o})
    ensures Elems(chains[o]) !! OwnedSet(|t|, chains - {o})
  {
    assert Planted(0);
    var cs, rest := chains[o], chains - {o};
    assert forall p :: p in rest ==> Disjoint(chains[o], chains[p]) && rest[p] == chains[p];
    assert forall c :: c in Elems(cs) ==> c in OwnedSet(|t|, chains);
    forall c | c in OwnedSet(|t|, chains) && c !in cs ensures c in OwnedSet(|t|, rest) {
      var p :| p in chains && c in chains[p];
      assert p in rest && c in rest[p];
    }
  }

  lemma AccountsAdd(t: Table, chains: Chained, lost: set<nat>)
    requires Accounts(t, chains, lost) && 2 <= |t| && forall c :: c in lost ==> 2 <= c < |t|
    ensures FreeCount(t) + |lost| + |OwnedSet(|t|, chains)| == |t| - 2
  {
    assert Counted(0);
    var f, o := FreeSet(t), OwnedSet(|t|, chains);
    assert f !! lost && (f + lost) !! o;
    assert f + lost + o == Clusters(|t|);
    assert |f + lost| == |f| + |lost|;
  }

  /** Conservation: free clusters, lost ones and the lengths of all chains add up to the volume. */
  lemma Conserved(t: Table, chains: Chained, lost: set<nat>)
    requires Accounts(t, chains, lost) && Forest(t, chains) && 2 <= |t| && forall c :: c in lost ==> 2 <= c < |t|
    ensures FreeCount(t) + |lost| + Total(chains) == |t| - 2
  {
    TotalIs(t, chains);
    AccountsAdd(t, chains, lost);
  }
}
