/** Making a file longer or shorter (kernel/fat32.c:875-934). */
module Resizing {
  import opened Bytes
  import opened Geometry
  import opened Chains
  import opened FatCache
  import opened ClusterData
  import opened Evolution
  import opened Allocation
  import opened Growth
  import opened FileIo
  import opened FileBytes

  /** `b` cut or zero-padded to length `n`. */
  ghost function Resized(b: seq<Byte>, n: nat): seq<Byte> {
    if n <= |b| then b[..n] else Padded(b, n)
  }

  /** Shrinking to `m` and growing to `n` leaves the first `m` bytes and zeros, whatever the last cluster
      still held. */
  lemma ResizeTwice(b: seq<Byte>, m: nat, n: nat)
    requires m <= |b| && m <= n
    ensures Resized(Resized(b, m), n) == b[..m] + seq(n - m, _ => 0)
  {
    assert Resized(b, m) == b[..m];
    if n == m {
      assert b[..m][..n] == b[..m];
    }
  }

  /** One write of the scrubbing loop. */
  method ScrubSome(fat: Fat, head: nat, p: nat, to: nat, ghost raw: seq<Byte>, ghost from: nat, ghost ch: seq<nat>,
      ghost a: Snap)
    returns (next: nat)
    requires fat.Valid() && IsChain(fat.dev.fat, ch) && HeadOf(ch, head) && InVolume(fat.dev.g, ch)
    requires from <= p < to <= Room(fat.dev.g, |ch|) && to + fat.dev.g.ClusterBytes() + 512 < WORD
    requires Scrubbed(raw, Raw(fat.dev.g, fat.dev.sectors, ch), from, p) && Evolves(fat.dev.g, a, View(fat, ch, true))
    modifies fat, fat.dev
    ensures fat.Valid() && IsChain(fat.dev.fat, ch) && p < next <= to
    ensures FreeCount(fat.dev.fat) == FreeCount(old(fat.dev.fat))
    ensures Scrubbed(raw, Raw(fat.dev.g, fat.dev.sectors, ch), from, next) && Evolves(fat.dev.g, a, View(fat, ch, true))
    ensures old(fat.Exact()) ==> fat.Exact()
  {
    ghost var g, b := fat.dev.g, View(fat, ch, true);
    var n := if to - p > 512 then 512 else to - p;
    NeedLeast(g, p + n, |ch|);
    var zeros: seq<Byte> := seq(n, _ => 0);
    assert zeros == Zeros(n);
    var ok, _, _, same := WriteRaw(fat, head, p, zeros, ch);
    assert same == ch;
    EvolvesTrans(g, a, b, View(fat, ch, true));
    ScrubMore(raw, Raw(g, b.image, ch), Raw(g, fat.dev.sectors, ch), from, p, n);
    next := p + n;
  }

  /** Clears bytes `from` to `to` of the file, a sector's worth at a time. */
  method ScrubGap(fat: Fat, head: nat, from: nat, to: nat, ghost ch: seq<nat>, ghost a: Snap)
    requires fat.Valid() && Owns(fat.dev.fat, ch) && HeadOf(ch, head) && InVolume(fat.dev.g, ch)
    requires to <= Room(fat.dev.g, |ch|) && to + fat.dev.g.ClusterBytes() + 512 < WORD
    requires (from < to ==> a.live) && Evolves(fat.dev.g, a, View(fat, ch, a.live))
    modifies fat, fat.dev
    ensures fat.Valid() && Owns(fat.dev.fat, ch) && FreeCount(fat.dev.fat) == FreeCount(old(fat.dev.fat))
    ensures Scrubbed(Raw(fat.dev.g, old(fat.dev.sectors), ch), Raw(fat.dev.g, fat.dev.sectors, ch), from, to)
    ensures Evolves(fat.dev.g, a, View(fat, ch, a.live)) && (old(fat.Exact()) ==> fat.Exact())
  {
    ghost var raw := Raw(fat.dev.g, fat.dev.sectors, ch);
    var p := from;
    while p < to
      invariant fat.Valid() && Owns(fat.dev.fat, ch) && from <= p && (if from < to then p <= to else p == from)
      invariant FreeCount(fat.dev.fat) == FreeCount(old(fat.dev.fat)) && (old(fat.Exact()) ==> fat.Exact())
      invariant Scrubbed(raw, Raw(fat.dev.g, fat.dev.sectors, ch), from, p)
      invariant Evolves(fat.dev.g, a, View(fat, ch, a.live))
    {
      p := ScrubSome(fat, head, p, to, raw, from, ch, a);
    }
  }

  /** The growing part of `fat_truncate`: the chain is made long enough, and what its old last cluster still
      held past the old end is cleared, so the new bytes read as zero. */
  method GrowTo(fat: Fat, first: nat, oldLength: nat, length: nat, ghost cs: seq<nat>)
    returns (ok: bool, head: nat, ghost ch: seq<nat>)
    requires fat.Valid() && Owns(fat.dev.fat, cs) && HeadOf(cs, first) && first < WORD
    requires oldLength <= Room(fat.dev.g, |cs|) && oldLength < length && length + fat.dev.g.ClusterBytes() + 512 < WORD
    modifies fat, fat.dev
    ensures fat.Valid() && Owns(fat.dev.fat, ch) && HeadOf(ch, head) && head < WORD && InVolume(fat.dev.g, cs)
    ensures InVolume(fat.dev.g, ch)
    ensures ok <==> Need(fat.dev.g, length) - |cs| <= FreeCount(old(fat.dev.fat))
    ensures ok ==> length <= Room(fat.dev.g, |ch|)
    ensures ok ==>
      Raw(fat.dev.g, fat.dev.sectors, ch)[..length] ==
      Padded(Raw(fat.dev.g, old(fat.dev.sectors), cs)[..oldLength], length)
    ensures !ok ==>
      ch == cs && head == first && Raw(fat.dev.g, fat.dev.sectors, cs) == Raw(fat.dev.g, old(fat.dev.sectors), cs)
    ensures FreeCount(fat.dev.fat) + |ch| == FreeCount(old(fat.dev.fat)) + |cs|
    ensures Evolves(fat.dev.g, old(View(fat, cs, cs != [])), View(fat, ch, cs != []))
    ensures old(fat.Exact()) ==> fat.Exact()
  {
    ghost var g, a := fat.dev.g, View(fat, cs, cs != []);
    ChainInVolume(g, fat.dev.fat, cs);
    var had := LengthOf(fat, first, cs, cs != []);
    RoomIs(g, had);
    var allocEnd := had * fat.dev.g.ClusterBytes();
    ghost var b := View(fat, cs, cs != []);
    ok, head, ch := MakeRoom(fat, first, length, cs);
    ghost var d := View(fat, ch, cs != []);
    EvolvesTrans(g, a, b, d);
    OwnFatFrame(g, a.image, b.image, cs);
    RawFrame(g, a.image, b.image, cs);
    if ok {
      ghost var padded := Raw(g, d.image, ch);
      ScrubGap(fat, head, oldLength, if length < allocEnd then length else allocEnd, ch, a);
      GrownContents(Raw(g, a.image, cs), padded, Raw(g, fat.dev.sectors, ch), oldLength, length);
    }
  }

  /** `ensure_chain` for a file of `length` bytes. */
  method MakeRoom(fat: Fat, first: nat, length: nat, ghost cs: seq<nat>)
    returns (ok: bool, head: nat, ghost ch: seq<nat>)
    requires fat.Valid() && Owns(fat.dev.fat, cs) && HeadOf(cs, first) && first < WORD
    requires length + fat.dev.g.ClusterBytes() < WORD
    modifies fat, fat.dev
    ensures fat.Valid() && Owns(fat.dev.fat, ch) && HeadOf(ch, head) && head < WORD && InVolume(fat.dev.g, cs)
    ensures InVolume(fat.dev.g, ch)
    ensures ok <==> Need(fat.dev.g, length) - |cs| <= FreeCount(old(fat.dev.fat))
    ensures ok ==> Room(fat.dev.g, |cs|) <= Room(fat.dev.g, |ch|) && length <= Room(fat.dev.g, |ch|)
    ensures ok ==> Stored(Raw(fat.dev.g, old(fat.dev.sectors), cs), Raw(fat.dev.g, fat.dev.sectors, ch), length, [])
    ensures !ok ==>
      ch == cs && head == first && Raw(fat.dev.g, fat.dev.sectors, cs) == Raw(fat.dev.g, old(fat.dev.sectors), cs)
    ensures FreeCount(fat.dev.fat) + |ch| == FreeCount(old(fat.dev.fat)) + |cs|
    ensures Evolves(fat.dev.g, old(View(fat, cs, cs != [])), View(fat, ch, cs != []))
    ensures old(fat.Exact()) ==> fat.Exact()
  {
    ghost var g, a := fat.dev.g, View(fat, cs, cs != []);
    ChainInVolume(g, fat.dev.fat, cs);
    var need := ClustersFor(fat.dev.g, length);
    var touched;
    ok, head, touched, ch := EnsureChain(fat, first, need, cs);
    ChainInVolume(g, fat.dev.fat, ch);
    if ok {
      RawGrown(g, a.image, fat.dev.sectors, cs, ch);
      NeedLeast(g, length, |ch|);
      StoredNothing(Raw(g, a.image, cs), Raw(g, fat.dev.sectors, ch), length);
    } else {
      CappedSame(a.table, cs);
      RawFrame(g, a.image, fat.dev.sectors, cs);
    }
  }

  lemma StoredNothing(x: seq<Byte>, y: seq<Byte>, length: nat)
    requires |x| <= |y| && length <= |y| && y == x + Zeros(|y| - |x|)
    ensures Stored(x, y, length, [])
  {
    assert Overwrite(y, length, []) == y;
  }

  /** The shrinking part of `fat_truncate` when a cluster is left: the chain ends after its first `keep`
      clusters, whose bytes stay. */
  method CutTo(fat: Fat, first: nat, keep: nat, ghost cs: seq<nat>)
    requires fat.Valid() && IsChain(fat.dev.fat, cs) && first == cs[0] && 0 < keep <= |cs|
    modifies fat, fat.dev
    ensures fat.Valid() && IsChain(fat.dev.fat, cs[..keep])
    ensures SameOutsideFat(fat.dev.g, fat.dev.sectors, old(fat.dev.sectors))
    ensures Evolves(fat.dev.g, old(View(fat, cs, true)), View(fat, cs[..keep], true))
    ensures FreeCount(fat.dev.fat) + keep == FreeCount(old(fat.dev.fat)) + |cs|
    ensures old(fat.Exact()) ==> fat.Exact()
  {
    ghost var g, a := fat.dev.g, View(fat, cs, true);
    assert keep == |cs| || IsLink(a.table[cs[keep - 1]]) by {
      ChainCut(a.table, cs, keep);
    }
    var last := NthOf(fat, first, keep - 1, cs, true);
    ghost var b := View(fat, cs, true);
    if last != 0 {
      var rest := fat.dev.Get(last);
      ghost var c := View(fat, cs, true);
      ReadStep(g, b, c);
      EvolvesTrans(g, a, b, c);
      if 2 <= rest < FAT_BAD {
        CutTail(fat, last, rest, cs, keep);
        EvolvesTrans(g, a, c, View(fat, cs[..keep], true));
      } else {
        assert cs[..keep] == cs;
      }
    }
  }
}
