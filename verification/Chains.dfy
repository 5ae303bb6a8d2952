/** Cluster chains in a table of entries, with no state: what a chain is, and how freeing, linking
    and cutting change one chain and leave the others alone (kernel/fat32.c:211-366). */
module Chains {
  import opened Geometry

  type Table = seq<nat>

  /** A value that names another cluster, as `free_chain`, `chain_nth` and `chain_length` test it. */
  predicate IsLink(v: nat) {
    2 <= v < FAT_BAD
  }

  /** What `fat_get` answers on table `t`. */
  function GetOf(t: Table, c: nat): (v: nat) {
    if 2 <= c < |t| then t[c] else FAT_EOC
  }

  ghost predicate InTable(t: Table, cs: seq<nat>) {
    forall i :: 0 <= i < |cs| ==> 2 <= cs[i] < |t|
  }

  ghost predicate Links(t: Table, cs: seq<nat>)
    requires InTable(t, cs)
  {
    forall i :: 0 <= i < |cs| - 1 ==> t[cs[i]] == cs[i + 1]
  }

  ghost predicate Traced(n: int) { true }

  /** `cs` is a complete chain: in-range clusters, each linked to the next, the last one ending it. */
  ghost predicate IsChain(t: Table, cs: seq<nat>) {
    && cs != []
    && |t| <= FAT_BAD
    && InTable(t, cs)
    && (forall n :: Traced(n) ==> Links(t, cs))
    && FAT_BAD <= t[cs[|cs| - 1]]
  }

  ghost predicate Distinct(cs: seq<nat>) {
    forall i, j :: 0 <= i < j < |cs| ==> cs[i] != cs[j]
  }

  ghost predicate Disjoint(a: seq<nat>, b: seq<nat>) {
    forall c :: c in a ==> c !in b
  }

  lemma ChainTail(t: Table, cs: seq<nat>, k: nat)
    requires IsChain(t, cs) && k < |cs|
    ensures IsChain(t, cs[k..])
  {
    assert Traced(0);
  }

  lemma ChainNext(t: Table, cs: seq<nat>)
    requires IsChain(t, cs)
    ensures |cs| > 1 <==> t[cs[0]] < FAT_BAD
    ensures |cs| > 1 ==> t[cs[0]] == cs[1]
  {
    assert Traced(0);
    if |cs| > 1 {
      assert t[cs[0]] == cs[0 + 1];
    }
  }

  /** Links are functional, so a chain is determined by its head. */
  lemma {:induction false} ChainUnique(t: Table, a: seq<nat>, b: seq<nat>)
    requires IsChain(t, a) && IsChain(t, b) && a[0] == b[0]
    ensures a == b
  {
    assert Traced(0);
    ChainNext(t, a);
    ChainNext(t, b);
    if |a| > 1 {
      ChainTail(t, a, 1);
      ChainTail(t, b, 1);
      ChainUnique(t, a[1..], b[1..]);
      assert a == [a[0]] + a[1..] && b == [b[0]] + b[1..];
    }
  }

  /** A walk that reaches an end marker cannot have visited a cluster twice. */
  lemma ChainAcyclic(t: Table, cs: seq<nat>)
    requires IsChain(t, cs)
    ensures Distinct(cs)
  {
    assert Traced(0);
    forall i, j | 0 <= i < j < |cs| ensures cs[i] != cs[j] {
      if cs[i] == cs[j] {
        ChainTail(t, cs, i);
        ChainTail(t, cs, j);
        ChainUnique(t, cs[i..], cs[j..]);
      }
    }
  }

  lemma ChainFrame(t: Table, u: Table, cs: seq<nat>)
    requires IsChain(t, cs) && |u| == |t|
    requires forall c :: c in cs ==> u[c] == t[c]
    ensures IsChain(u, cs)
  {
    assert Traced(0);
  }

  /** The plain walk: the cluster `n` links after `first`, or 0 if the walk ends before. */
  ghost function Walk(t: Table, first: nat, n: nat): nat
    decreases n
  {
    if first < 2 then 0
    else if n == 0 then first
    else
      var v := GetOf(t, first);
      if IsLink(v) then Walk(t, v, n - 1) else 0
  }

  /** On a chain, the walk reads off the chain's clusters and then nothing. */
  lemma {:induction false} WalkOnChain(t: Table, cs: seq<nat>, n: nat)
    requires IsChain(t, cs)
    ensures Walk(t, cs[0], n) == if n < |cs| then cs[n] else 0
  {
    assert Traced(0);
    if n > 0 && |cs| > 1 {
      ChainTail(t, cs, 1);
      WalkOnChain(t, cs[1..], n - 1);
    }
  }

  /** Walks compose, which is what resuming from a remembered position relies on. */
  lemma {:induction false} WalkCompose(t: Table, first: nat, m: nat, n: nat)
    ensures Walk(t, first, m + n) == if Walk(t, first, m) == 0 then 0 else Walk(t, Walk(t, first, m), n)
    decreases m
  {
    if first >= 2 && m > 0 {
      var v := GetOf(t, first);
      if IsLink(v) {
        WalkCompose(t, v, m - 1, n);
      }
    }
  }

  /** One link further: the walk goes on there, or it has ended for good. */
  lemma {:induction false} WalkOn(t: Table, first: nat, i: nat, index: nat)
    requires i < index && 2 <= Walk(t, first, i)
    ensures var v := GetOf(t, Walk(t, first, i));
      if IsLink(v) then Walk(t, first, i + 1) == v else Walk(t, first, index) == 0
  {
    WalkCompose(t, first, i, 1);
    WalkCompose(t, first, i + 1, index - i - 1);
  }

  lemma {:induction false} WalkFrame(t: Table, u: Table, c: nat, first: nat, n: nat)
    requires |u| == |t| && c < |t|
    requires forall i :: 0 <= i < |t| && i != c ==> u[i] == t[i]
    requires !IsLink(t[c]) && Walk(t, first, n) != 0
    ensures Walk(u, first, n) == Walk(t, first, n)
    decreases n
  {
    if first >= 2 && n > 0 {
      var v := GetOf(t, first);
      assert IsLink(v);
      WalkFrame(t, u, c, v, n - 1);
    }
  }

  ghost function FreeSet(t: Table): (s: set<nat>) {
    set c: nat | 2 <= c < |t| && t[c] == 0
  }

  /** The number of free clusters. */
  ghost function FreeCount(t: Table): nat {
    |FreeSet(t)|
  }

  lemma FreeCountTake(t: Table, c: nat, v: nat)
    requires 2 <= c < |t| && t[c] == 0 && v != 0
    ensures FreeCount(t[c := v]) == FreeCount(t) - 1
  {
    assert FreeSet(t[c := v]) == FreeSet(t) - {c};
  }

  lemma FreeCountGive(t: Table, c: nat)
    requires 2 <= c < |t| && t[c] != 0
    ensures FreeCount(t[c := 0]) == FreeCount(t) + 1
  {
    assert FreeSet(t[c := 0]) == FreeSet(t) + {c};
  }

  lemma FreeCountSame(t: Table, c: nat, v: nat)
    requires c < |t| && t[c] != 0 && v != 0
    ensures FreeCount(t[c := v]) == FreeCount(t)
  {
    assert FreeSet(t[c := v]) == FreeSet(t);
  }

  lemma FreeCountBound(t: Table)
    requires 2 <= |t|
    ensures FreeCount(t) <= |t| - 2
    ensures FreeCount(t) == 0 <==> forall c :: 2 <= c < |t| ==> t[c] != 0
  {
    SubsetCard(FreeSet(t), Clusters(|t|));
    if FreeCount(t) == 0 {
      forall c | 2 <= c < |t| ensures t[c] != 0 {
        assert c !in FreeSet(t);
      }
    } else {
      var c :| c in FreeSet(t);
    }
  }

  ghost function Clusters(limit: nat): (s: set<nat>)
    requires 2 <= limit
    ensures forall c :: c in s <==> 2 <= c < limit
    ensures |s| == limit - 2
  {
    if limit == 2 then {} else Clusters(limit - 1) + {limit - 1}
  }

  lemma {:induction false} SubsetCard<T>(a: set<T>, b: set<T>)
    requires a <= b
    ensures |a| <= |b|
  {
    if a != {} {
      var x :| x in a;
      SubsetCard(a - {x}, b - {x});
    }
  }

  /** The table after the clusters `cs` were marked free. */
  ghost function Freed(t: Table, cs: seq<nat>): (u: Table)
    ensures |u| == |t|
  {
    seq(|t|, c requires 0 <= c < |t| => if c in cs then 0 else t[c])
  }

  lemma FreedNone(t: Table)
    ensures Freed(t, []) == t
  {
  }

  lemma {:induction false} FreedCount(t: Table, cs: seq<nat>)
    requires Distinct(cs) && forall c :: c in cs ==> 2 <= c < |t| && t[c] != 0
    ensures FreeCount(Freed(t, cs)) == FreeCount(t) + |cs|
  {
    if cs == [] {
      assert Freed(t, cs) == t;
    } else {
      var n := |cs| - 1;
      var u := Freed(t, cs[..n]);
      assert forall c :: c in cs[..n] ==> c in cs;
      FreedCount(t, cs[..n]);
      assert cs[n] in cs && cs[n] !in cs[..n];
      FreeCountGive(u, cs[n]);
      assert cs == cs[..n] + [cs[n]];
      assert Freed(t, cs) == u[cs[n] := 0];
    }
  }

  /** Marking a free cluster as an end and linking the old end to it extends the chain by it. */
  lemma ChainAppend(t: Table, cs: seq<nat>, c: nat)
    requires IsChain(t, cs) && 2 <= c < |t| && t[c] == 0
    ensures IsChain(t[c := FAT_MASK], cs) && IsChain(t[c := FAT_MASK], [c])
    ensures IsChain(t[c := FAT_MASK][cs[|cs| - 1] := c], cs + [c])
  {
    assert Traced(0);
    ChainNonZero(t, cs);
    ChainAcyclic(t, cs);
    ChainFrame(t, t[c := FAT_MASK], cs);
    var u := t[c := FAT_MASK][cs[|cs| - 1] := c];
    forall i | 0 <= i < |cs| ensures u[(cs + [c])[i]] == (cs + [c])[i + 1] {
    }
  }

  lemma ChainNonZero(t: Table, cs: seq<nat>)
    requires IsChain(t, cs)
    ensures forall c :: c in cs ==> t[c] != 0
  {
    assert Traced(0);
    forall c | c in cs ensures t[c] != 0 {
      var i :| 0 <= i < |cs| && cs[i] == c;
      if i < |cs| - 1 {
        assert t[cs[i]] == cs[i + 1];
      }
    }
  }

  /** Capping a chain after its first `k` clusters leaves two chains. */
  lemma ChainCut(t: Table, cs: seq<nat>, k: nat)
    requires IsChain(t, cs) && 0 < k <= |cs|
    ensures IsChain(t[cs[k - 1] := FAT_MASK], cs[..k])
    ensures k < |cs| ==> t[cs[k - 1]] == cs[k] && IsChain(t[cs[k - 1] := FAT_MASK], cs[k..])
  {
    assert Traced(0);
    ChainAcyclic(t, cs);
    var u := t[cs[k - 1] := FAT_MASK];
    forall i | 0 <= i < k - 1 ensures u[cs[..k][i]] == cs[..k][i + 1] {
      assert cs[i] != cs[k - 1];
    }
    if k < |cs| {
      ChainTail(t, cs, k);
      ChainFrame(t, u, cs[k..]);
    }
  }
}
