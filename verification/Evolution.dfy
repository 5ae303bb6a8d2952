/** What a run of table and data writes made on behalf of one file may do to the rest of the volume,
    at its end and at every moment in between.

    A `Snap` is the volume as one operation sees it: the table, the clusters of the file it works on,
    whether a directory entry on the device still points at them (`live`), the table and image on the
    device, and the log of past moments. `Evolves(a, b)` says that from `a` to `b` every cluster
    outside the file that was in use kept its table entry and its bytes, and that at every moment of
    the way, if the file was live, its head, followed in the table on the device, was a well-formed
    chain made of the file's own clusters and of clusters that were free. */
module Evolution {
  import opened Bytes
  import opened Geometry
  import opened Chains
  import opened FatCache
  import opened ClusterData

  datatype Snap = Snap(table: Table, chain: seq<nat>, live: bool, disk: Table, image: Image, log: seq<Moment>)

  ghost predicate Owns(t: Table, cs: seq<nat>) {
    cs == [] || IsChain(t, cs)
  }

  /** From table `t`, where the file owns `cs`, to table `u`, where it owns `ch`: clusters in use
      elsewhere keep their entries and are not taken. */
  ghost predicate Within(t: Table, cs: seq<nat>, u: Table, ch: seq<nat>) {
    && |u| == |t|
    && forall c :: 2 <= c < |t| && t[c] != 0 && c !in cs ==> u[c] == t[c] && c !in ch
  }

  ghost predicate SameHead(cs: seq<nat>, ch: seq<nat>) {
    cs != [] ==> ch != [] && ch[0] == cs[0]
  }

  /** Table `u` is acceptable on the device while the file that owns `cs` in `t` is worked on. */
  ghost predicate Confined(t: Table, cs: seq<nat>, live: bool, u: Table) {
    exists ch :: Within(t, cs, u, ch) && (live && cs != [] ==> IsChain(u, ch) && SameHead(cs, ch))
  }

  ghost predicate DataKept(g: Geometry, t: Table, cs: seq<nat>, a: Image, b: Image)
    requires g.Valid() && Fits(g, a) && |t| == g.Limit()
  {
    && Fits(g, b)
    && forall c :: 2 <= c < |t| && t[c] != 0 && c !in cs ==> SameCluster(g, a, b, c)
  }

  ghost predicate Keeps(g: Geometry, a: Snap, m: Moment)
    requires g.Valid() && Fits(g, a.image) && |a.table| == g.Limit()
  {
    && (m.table == a.disk || Confined(a.table, a.chain, a.live, m.table))
    && DataKept(g, a.table, a.chain, a.image, m.image)
  }

  ghost predicate Sound(g: Geometry, a: Snap) {
    && g.Valid() && Fits(g, a.image) && |a.table| == g.Limit()
    && |a.log| > 0 && a.log[|a.log| - 1] == Moment(a.image, a.disk)
  }

  ghost predicate EvolvesBody(g: Geometry, a: Snap, b: Snap)
    requires Sound(g, a)
  {
    && Within(a.table, a.chain, b.table, b.chain)
    && (a.live && a.chain != [] ==> b.live && SameHead(a.chain, b.chain))
    && Keeps(g, a, Moment(b.image, b.disk))
    && a.log <= b.log
    && forall i :: |a.log| <= i < |b.log| ==> Keeps(g, a, b.log[i])
  }

  ghost predicate Replayed(n: int) { true }

  ghost predicate Evolves(g: Geometry, a: Snap, b: Snap) {
    Sound(g, a) && Sound(g, b) && forall n :: Replayed(n) ==> EvolvesBody(g, a, b)
  }

  lemma WithinTrans(t: Table, cs: seq<nat>, u: Table, ch: seq<nat>, v: Table, dh: seq<nat>)
    requires Within(t, cs, u, ch) && Within(u, ch, v, dh)
    ensures Within(t, cs, v, dh)
  {
  }

  lemma KeepsTrans(g: Geometry, a: Snap, b: Snap, m: Moment)
    requires Sound(g, a) && Sound(g, b) && EvolvesBody(g, a, b) && Keeps(g, b, m)
    ensures Keeps(g, a, m)
  {
    if m.table != b.disk {
      var ch :| Within(b.table, b.chain, m.table, ch) &&
        (b.live && b.chain != [] ==> IsChain(m.table, ch) && SameHead(b.chain, ch));
      WithinTrans(a.table, a.chain, b.table, b.chain, m.table, ch);
    }
    forall c | 2 <= c < |a.table| && a.table[c] != 0 && c !in a.chain ensures SameCluster(g, a.image, m.image, c) {
      assert SameCluster(g, a.image, b.image, c);
      assert SameCluster(g, b.image, m.image, c);
      SameClusterTrans(g, a.image, b.image, m.image, c);
    }
  }

  lemma EvolvesTrans(g: Geometry, a: Snap, b: Snap, c: Snap)
    requires Evolves(g, a, b) && Evolves(g, b, c)
    ensures Evolves(g, a, c)
  {
    assert Replayed(0);
    WithinTrans(a.table, a.chain, b.table, b.chain, c.table, c.chain);
    KeepsTrans(g, a, b, Moment(c.image, c.disk));
    forall i | |a.log| <= i < |c.log| ensures Keeps(g, a, c.log[i]) {
      if i < |b.log| {
        assert c.log[i] == b.log[i];
      } else {
        KeepsTrans(g, a, b, c.log[i]);
      }
    }
  }

  lemma FatOnly(g: Geometry, t: Table, cs: seq<nat>, a: Image, b: Image)
    requires g.Valid() && Fits(g, a) && SameOutsideFat(g, b, a) && |t| == g.Limit()
    ensures DataKept(g, t, cs, a, b)
  {
    forall c | 2 <= c < |t| ensures SameCluster(g, a, b, c) {
      FatFrame(g, a, b, c);
    }
  }

  /** Table writes that move the file from `a.chain` to `b.chain`, every logged table being
      acceptable. */
  lemma TableStep(g: Geometry, a: Snap, b: Snap)
    requires Sound(g, a) && Sound(g, b)
    requires Within(a.table, a.chain, b.table, b.chain)
    requires a.live && a.chain != [] ==> b.live && SameHead(a.chain, b.chain)
    requires SameOutsideFat(g, b.image, a.image)
    requires a.log <= b.log
    requires forall i :: |a.log| <= i < |b.log| ==>
      SameOutsideFat(g, b.log[i].image, a.image) && Confined(a.table, a.chain, a.live, b.log[i].table)
    ensures Evolves(g, a, b)
  {
    FatOnly(g, a.table, a.chain, a.image, b.image);
    forall i | |a.log| <= i < |b.log| ensures Keeps(g, a, b.log[i]) {
      FatOnly(g, a.table, a.chain, a.image, b.log[i].image);
    }
    if |a.log| == |b.log| {
      assert b.disk == a.disk;
    } else {
      assert Keeps(g, a, b.log[|b.log| - 1]);
    }
  }

  lemma Unmoved(t: Table, cs: seq<nat>, live: bool)
    requires live ==> Owns(t, cs)
    ensures Within(t, cs, t, cs) && Confined(t, cs, live, t)
  {
    assert Within(t, cs, t, cs);
  }

  lemma EvolvesRefl(g: Geometry, a: Snap)
    requires Sound(g, a) && (a.live ==> Owns(a.table, a.chain))
    ensures Evolves(g, a, a)
  {
    Unmoved(a.table, a.chain, a.live);
  }

  /** Reads of the table may flush it, which shows the table as it is. */
  lemma ReadStep(g: Geometry, a: Snap, b: Snap)
    requires Sound(g, a) && Sound(g, b) && (a.live ==> Owns(a.table, a.chain))
    requires b.table == a.table && b.chain == a.chain && b.live == a.live
    requires SameOutsideFat(g, b.image, a.image)
    requires Logged(g, a.log, b.log, a.table, a.image)
    ensures Evolves(g, a, b)
  {
    Unmoved(a.table, a.chain, a.live);
    TableStep(g, a, b);
  }

  /** Writing a sector of the file's own cluster, or of a free one. */
  lemma DataStep(g: Geometry, a: Snap, b: Snap, c: nat, s: nat, w: Sector)
    requires Sound(g, a) && g.InRange(c) && s < g.spc && (a.live ==> Owns(a.table, a.chain))
    requires c in a.chain || a.table[c] == 0
    requires b.table == a.table && b.chain == a.chain && b.disk == a.disk && b.live == a.live
    requires g.ClusterLba(c) + s < |a.image| && b.image == a.image[g.ClusterLba(c) + s := w]
    requires b.log == a.log + [Moment(b.image, b.disk)]
    ensures Evolves(g, a, b)
  {
    Unmoved(a.table, a.chain, a.live);
    forall c' | 2 <= c' < |a.table| && a.table[c'] != 0 && c' !in a.chain ensures SameCluster(g, a.image, b.image, c') {
      SectorFrame(g, a.image, c, s, w, c');
    }
  }

  /** Taking the free cluster `c` after the end of the file's chain. */
  lemma AppendStep(g: Geometry, a: Snap, b: Snap, c: nat)
    requires Sound(g, a) && Sound(g, b) && Owns(a.table, a.chain)
    requires 2 <= c < |a.table| && a.table[c] == 0
    requires b.chain == a.chain + [c] && b.live == a.live
    requires b.table == if a.chain == [] then a.table[c := FAT_MASK]
                        else a.table[c := FAT_MASK][a.chain[|a.chain| - 1] := c]
    requires SameOutsideFat(g, b.image, a.image)
    requires a.log <= b.log
    requires forall i :: |a.log| <= i < |b.log| ==>
      && SameOutsideFat(g, b.log[i].image, a.image)
      && (b.log[i].table == a.table || b.log[i].table == a.table[c := FAT_MASK])
    ensures Evolves(g, a, b) && IsChain(b.table, b.chain)
  {
    var mid := a.table[c := FAT_MASK];
    if a.chain != [] {
      ChainAppend(a.table, a.chain, c);
    }
    assert Within(a.table, a.chain, mid, a.chain);
    Unmoved(a.table, a.chain, a.live);
    assert Confined(a.table, a.chain, a.live, mid);
    TableStep(g, a, b);
  }

  /** Capping the chain after `k` clusters and freeing some of the rest, in order. */
  lemma CutConfined(t: Table, cs: seq<nat>, k: nat, j: nat)
    requires IsChain(t, cs) && 0 < k <= |cs| && j <= |cs| - k
    ensures Within(t, cs, Freed(t[cs[k - 1] := FAT_MASK], cs[k..][..j]), cs[..k])
    ensures IsChain(Freed(t[cs[k - 1] := FAT_MASK], cs[k..][..j]), cs[..k])
    ensures Confined(t, cs, true, Freed(t[cs[k - 1] := FAT_MASK], cs[k..][..j]))
  {
    ChainCut(t, cs, k);
    ChainAcyclic(t, cs);
    var mid := t[cs[k - 1] := FAT_MASK];
    var u := Freed(mid, cs[k..][..j]);
    forall c | c in cs[..k] ensures u[c] == mid[c] {
      var i :| 0 <= i < k && cs[i] == c;
      assert c !in cs[k..];
    }
    ChainFrame(mid, u, cs[..k]);
    assert SameHead(cs, cs[..k]);
    assert forall c :: c in cs[k..][..j] ==> c in cs;
  }

  ghost predicate Partly(n: int) { true }

  ghost predicate FreedPrefix(t: Table, cs: seq<nat>, u: Table) {
    forall n :: Partly(n) ==> exists j :: 0 <= j <= |cs| && u == Freed(t, cs[..j])
  }

  /** Cutting the chain after `k` clusters and freeing the rest, front to back. */
  lemma CutStep(g: Geometry, a: Snap, b: Snap, k: nat)
    requires Sound(g, a) && Sound(g, b) && a.live && b.live
    requires IsChain(a.table, a.chain) && 0 < k <= |a.chain| && b.chain == a.chain[..k]
    requires b.table == Freed(a.table[a.chain[k - 1] := FAT_MASK], a.chain[k..])
    requires SameOutsideFat(g, b.image, a.image)
    requires a.log <= b.log
    requires forall i :: |a.log| <= i < |b.log| ==>
      && SameOutsideFat(g, b.log[i].image, a.image)
      && (b.log[i].table == a.table || FreedPrefix(a.table[a.chain[k - 1] := FAT_MASK], a.chain[k..], b.log[i].table))
    ensures Evolves(g, a, b) && IsChain(b.table, b.chain)
  {
    var t, cs := a.table, a.chain;
    var mid := t[cs[k - 1] := FAT_MASK];
    CutConfined(t, cs, k, |cs| - k);
    assert cs[k..][..|cs| - k] == cs[k..];
    Unmoved(t, cs, true);
    forall i | |a.log| <= i < |b.log| ensures Confined(t, cs, true, b.log[i].table) {
      if b.log[i].table != t {
        assert Partly(0);
        var j :| 0 <= j <= |cs[k..]| && b.log[i].table == Freed(mid, cs[k..][..j]);
        CutConfined(t, cs, k, j);
      }
    }
    TableStep(g, a, b);
  }

  /** Freeing any of a dead file's clusters. */
  lemma FreeConfined(t: Table, cs: seq<nat>, j: nat)
    requires j <= |cs|
    ensures Within(t, cs, Freed(t, cs[..j]), cs) && Confined(t, cs, false, Freed(t, cs[..j]))
  {
    assert forall c :: c in cs[..j] ==> c in cs;
    assert Within(t, cs, Freed(t, cs[..j]), cs);
  }

  /** Freeing the whole chain of a file no directory entry points at. */
  lemma ReleaseStep(g: Geometry, a: Snap, b: Snap)
    requires Sound(g, a) && Sound(g, b) && !a.live && b.chain == []
    requires b.table == Freed(a.table, a.chain)
    requires SameOutsideFat(g, b.image, a.image)
    requires a.log <= b.log
    requires forall i :: |a.log| <= i < |b.log| ==>
      SameOutsideFat(g, b.log[i].image, a.image) && FreedPrefix(a.table, a.chain, b.log[i].table)
    ensures Evolves(g, a, b)
  {
    forall i | |a.log| <= i < |b.log| ensures Confined(a.table, a.chain, false, b.log[i].table) {
      assert Partly(0);
      var j :| 0 <= j <= |a.chain| && b.log[i].table == Freed(a.table, a.chain[..j]);
      FreeConfined(a.table, a.chain, j);
    }
    TableStep(g, a, b);
  }
}
