/** A directory on the device: finding room for a name, writing its entries, freeing them, and reading the
    whole directory back. Every step is a read or a write of one entry through the cluster chain
    (kernel/fat32.c:542-573, kernel/fat32.c:603-722, kernel/fat32.c:970-1144, kernel/fat32.c:1283-1307). */
module Directory {
  import opened Bytes
  import opened Geometry
  import opened Quotient
  import opened Chains
  import opened FatCache
  import opened ClusterData
  import opened Evolution
  import opened Allocation
  import opened Growth
  import opened FileBytes
  import opened Names
  import opened LongNames
  import opened ShortNames
  import opened Layout
  import opened Edits
  import opened Spelling
  import opened NodeList
  import opened DirectoryIo

  // Predicates quantified over one of these stay folded in a proof until it mentions that token.
  ghost predicate Picked(n: int) { true }
  ghost predicate Sought(n: int) { true }
  ghost predicate Spelled(n: int) { true }

  ghost predicate FreeRun(e: Entries, s: nat, n: nat) {
    s + n <= |e| && forall k :: s <= k < s + n ==> IsFree(e[k])
  }

  /** A live entry stands in the way of a run of `n` from `s`. */
  ghost predicate Blocked(e: Entries, s: nat, n: nat) {
    exists k :: s <= k < s + n && k < |e| && !IsFree(e[k])
  }

  /** Every run of `n` that starts before `m` meets a live entry. */
  ghost predicate BlockedBefore(e: Entries, m: nat, n: nat) {
    forall s: nat :: s < m ==> Blocked(e, s, n)
  }

  ghost predicate NoRun(e: Entries, n: nat) {
    forall s: nat :: !FreeRun(e, s, n)
  }

  /** `s` starts the first run of `n` free entries. */
  ghost predicate FirstRun(e: Entries, s: nat, n: nat) {
    FreeRun(e, s, n) && forall q: nat :: q < s ==> !FreeRun(e, q, n)
  }

  ghost predicate Roomy(n: int) { true }

  /** The directory has free entries enough, one after the other, for those of the name; folded behind `Roomy`. */
  ghost predicate HasRoom(e: Entries, name: seq<Byte>) {
    forall n: int :: Roomy(n) ==> !NoRun(e, SlotsOf(name, Long(e, name)))
  }

  /** The entries of the name go to the first such run, from `slot` on; folded behind `Roomy`. */
  ghost predicate GoesTo(e: Entries, name: seq<Byte>, slot: nat) {
    forall n: int :: Roomy(n) ==> FirstRun(e, slot, SlotsOf(name, Long(e, name)))
  }

  lemma BlockedNoRun(e: Entries, f: Entries, m: nat, n: nat)
    requires e <= f && BlockedBefore(e, m, n)
    ensures forall s: nat :: s < m ==> !FreeRun(f, s, n)
  {
    forall s: nat | s < m ensures !FreeRun(f, s, n) {
      assert Blocked(e, s, n);
      var k :| s <= k < s + n && k < |e| && !IsFree(e[k]);
      assert f[k] == e[k];
    }
  }

  /** A live entry at `i` blocks every run that would reach it. */
  lemma BlockedBy(e: Entries, i: nat, run: nat, n: nat)
    requires run <= i < |e| && run < n && !IsFree(e[i]) && BlockedBefore(e, i - run, n)
    ensures BlockedBefore(e, i + 1, n)
  {
    forall s: nat | s < i + 1 ensures Blocked(e, s, n) {
      if s >= i - run {
        assert s <= i < s + n;
      }
    }
  }

  /** The fewest clusters that hold `n` entries. */
  method ClustersHolding(n: nat, per: nat) returns (q: nat)
    requires 0 < n && 0 < per
    ensures 0 < q && Span(q - 1, per) < n <= Span(q, per)
  {
    q := (n + per - 1) / per;
    assert n + per - 1 == q * per + (n + per - 1) % per;
    QuotIsDiv(n + per - 1, per);
    assert q * per == (q - 1) * per + per;
    SpanIs(q, per);
    SpanIs(q - 1, per);
  }

  lemma FragmentsKept(e: Entries, f: Entries, index: nat, n: nat, name: seq<Byte>, count: nat, sum: Byte)
    requires n <= count && index + n < |e| == |f| && forall k :: index <= k < index + n ==> f[k] == e[k]
    requires forall j :: 0 <= j < n ==> FragmentAt(e, index, j, name, count, sum)
    ensures forall j :: 0 <= j < n ==> FragmentAt(f, index, j, name, count, sum)
  {
    forall j | 0 <= j < n ensures FragmentAt(f, index, j, name, count, sum) {
      assert FragmentAt(e, index, j, name, count, sum) && f[index + j] == e[index + j];
    }
  }

  /** "." and "..": a scan passes over them. */
  lemma DotsInert(e: DirEntry, n: nat, nt: Byte, cluster: nat, size: nat)
    requires n == 1 || n == 2
    requires IsShortEntry(e, Pad(seq(n, _ => DOT), 8) + Pad([], 3), nt, true, cluster, size) && nt == 0
    ensures Inert(e) && e[0] == DOT && !IsFragmentEntry(e)
  {
    var base: seq<Byte> := seq(n, _ => DOT);
    var short := Pad(base, 8) + Pad([], 3);
    assert short[..8] == Pad(base, 8) && short[8] == SPACE;
    UntilSpacePad(base, 8);
    assert NameOf(short, 0) == base;
    CStringWhole(base);
    assert base == [DOT] || base == [DOT, DOT];
    assert e[0] == e[..11][0];
    assert EntryName(Idle, e) == base;
  }

  /** A directory just made holds nothing but "." and "..". */
  lemma {:induction false} FreshLaidOut(e: Entries)
    requires 2 <= |e| && Inert(e[0]) && Inert(e[1]) && e[0][0] == DOT && e[1][0] == DOT
    requires forall k :: 2 <= k < |e| ==> e[k][0] == ENTRY_END
    ensures LiveEnd(e) == 2 && Holds(e, map[]) && Remounts(e, map[])
  {
    assert LiveEnd(e) == 2 && EndsAt(e, 2) by {
      LiveEndIs(e, 2);
    }
    NoGroups(e, map[]);
    HeldAgrees(e, map[]);
  }

  lemma {:induction false} NoGroups(e: Entries, c: Index)
    requires c == map[] && EndsAt(e, LiveEnd(e)) && forall p: nat :: p < LiveEnd(e) ==> Inert(e[p])
    ensures Holds(e, c)
  {
    Arrange(e, Slots(c));
    HoldsIs(e, c);
  }

  lemma FreshUnique(e: Entries)
    requires 2 <= |e| && LiveEnd(e) == 2 && e[0][..11] != e[1][..11]
    ensures ShortUnique(e)
  {
    forall p: nat, q: nat | InUse(e, p) && InUse(e, q) && e[p][..11] == e[q][..11] ensures p == q {
      assert p < 2 && q < 2;
      assert p == 0 ==> q != 1;
      assert p == 1 ==> q != 0;
    }
    assert ShortsDiffer(e);
  }

  lemma PlaceUnused(kids: seq<Node>, c: Index, i: nat)
    requires Listed(kids, c) && forall n :: n in kids ==> n.at < i
    ensures i !in c
  {
    ListedIs(kids, c);
    if i in c {
      var k := IndexHasNode(kids, i);
    }
  }

  lemma StepFinds(r: Reader, i: nat, ent: DirEntry)
    requires ScanOk(r.scan) && i !in r.found
    ensures var q := Step(r, i, ent);
      q.found == (if i in q.found then r.found[i := q.found[i]] else r.found) && (i in q.found ==> Storable(q.found[i]))
  {
  }

  lemma UsesExtended(e: Entries, f: Entries, short: seq<Byte>)
    requires e <= f && LiveEnd(f) == LiveEnd(e)
    ensures Taken(f, short) <==> Taken(e, short)
    ensures ShortUnique(e) ==> ShortUnique(f)
  {
    assert Compared(0);
    assert forall p: nat :: InUse(e, p) <==> InUse(f, p);
    assert forall p: nat :: InUse(e, p) ==> f[p] == e[p];
  }

  /** Whether a name will be written with fragments: it has no short form, or that is in use. */
  ghost predicate Long(e: Entries, name: seq<Byte>) {
    forall n: int :: Spelled(n) ==> !(HasShort(name) && !Taken(e, ShortBytes(name)))
  }

  function SlotsOf(name: seq<Byte>, long: bool): nat {
    (if long then SlotsFor(|name|) else 0) + 1
  }

  /** An unused short name, and room for the entries of the name from `slot` on. */
  ghost predicate Chosen(e: Entries, name: seq<Byte>, slot: nat, short: seq<Byte>, nt: Byte, long: bool) {
    forall n: int :: Picked(n) ==> Choice(e, name, slot, short, nt, long)
  }

  ghost predicate Choice(e: Entries, name: seq<Byte>, slot: nat, short: seq<Byte>, nt: Byte, long: bool) {
    && |short| == 11 && ShortCharOk(short[0]) && !Taken(e, short) && Vacant(e, slot, SlotsOf(name, long))
    && (!long ==> HasShort(name) && short == ShortBytes(name) && nt == ShortFlags(name))
  }

  /** A node whose entries go to `slot`. */
  predicate Placed(node: Node, slot: nat, long: bool) {
    && CName(node.record.name) && Storable(node.record)
    && node.record.slots == SlotsOf(node.record.name, long) && node.at + 1 == slot + node.record.slots
  }

  /** Why a name finds no place: its short names are all in use, or the directory has no room for its
      entries and the volume no free cluster (folded: a proof opens it with `assert Sought(0)`). */
  ghost predicate NoPlace(e: Entries, name: seq<Byte>, free: nat) {
    forall n: int :: Sought(n) ==> LAST_TRY <= |Uses(e)| || (free == 0 && NoRun(e, SlotsOf(name, Long(e, name))))
  }

  lemma ErasedUnique(e: Entries, f: Entries, at: nat, slots: nat)
    requires ShortUnique(e) && slots <= at + 1 && Spliced(e, f, at + 1 - slots, slots) && LiveEnd(f) == LiveEnd(e)
    requires forall k :: 0 <= k <= at < k + slots ==> f[k][0] == ENTRY_FREE
    ensures ShortUnique(f)
  {
    forall p: nat | InUse(f, p) ensures InUse(e, p) && f[p] == e[p] {
      assert f[p][0] != ENTRY_FREE;
    }
    FewerShorts(e, f);
  }

  lemma PatchedUnique(e: Entries, f: Entries, at: nat)
    requires ShortUnique(e) && Rewritten(e, f, at) && LiveEnd(f) == LiveEnd(e)
    ensures ShortUnique(f)
  {
    PatchedHead(e, f, at);
    forall p: nat | InUse(f, p) ensures InUse(e, p) && f[p][..11] == e[p][..11] {
    }
    FewerShorts(e, f);
  }

  /** `dirent_update` on one entry. */
  method PatchShort(ent: DirEntry, isDir: bool, cluster: nat, length: nat, stamp: Stamp) returns (r: DirEntry)
    requires cluster < WORD && length < WORD
    ensures r[..13] == ent[..13] && ClusterOf(r) == cluster && (!isDir ==> Rd32(r, 28) == length)
  {
    var a := PutFields(ent, cluster, if isDir then Rd32(ent, 28) else length);
    r := Wr16(Wr16(Wr16(a, 22, stamp.time), 24, stamp.date), 18, stamp.date);
    assert Rd16(r, 20) == Rd16(a, 20) && Rd16(r, 26) == Rd16(a, 26) && Rd32(r, 28) == Rd32(a, 28);
    assert a[..13] == a[..14][..13] && ent[..13] == ent[..14][..13];
  }

  /** Fields a node can have. */
  predicate Storable(rec: Record) {
    rec.cluster < WORD && rec.length < WORD && (rec.isDir ==> rec.length == 0)
  }

  // ---------------------------------------------------------------- scans

  /** `short_name_taken`. */
  method ShortNameTaken(fat: Fat, first: nat, short: seq<Byte>, ghost cs: seq<nat>, ghost e: Entries)
    returns (taken: bool)
    requires Reads(fat, first, cs, e)
    modifies fat.dev, fat`memoFirst, fat`memoIndex, fat`memoCluster, fat`linkSteps
    ensures Reads(fat, first, cs, e) && fat.dev.fat == old(fat.dev.fat) && (old(fat.Exact()) ==> fat.Exact())
    ensures Quiet(fat.dev.g, old(View(fat, cs, true)), View(fat, cs, true), {})
    ensures old(!fat.dev.dirty) ==> !fat.dev.dirty
    ensures taken <==> Taken(e, short)
  {
    ghost var g, a := fat.dev.g, View(fat, cs, true);
    QuietRefl(g, a, {});
    var i := 0;
    while true
      invariant Reads(fat, first, cs, e) && fat.dev.fat == a.table && (old(fat.Exact()) ==> fat.Exact())
      invariant old(!fat.dev.dirty) ==> !fat.dev.dirty
      invariant Quiet(g, a, View(fat, cs, true), {})
      invariant i <= LiveEnd(e) && forall p: nat :: p < i ==> !(InUse(e, p) && e[p][..11] == short)
      decreases |e| - i
    {
      ghost var b := View(fat, cs, true);
      var found, ent, _ := Fetch(fat, first, i, cs, e);
      QuietTrans(g, a, b, View(fat, cs, true), {});
      if !found || ent[0] == ENTRY_END {
        return false;
      }
      if ent[0] != ENTRY_FREE && !IsFragmentEntry(ent) && ent[..11] == short {
        assert InUse(e, i);
        return true;
      }
      i := i + 1;
    }
  }

  ghost predicate Tallied(n: int) { true }

  /** The first `n` candidates are all in use; folded behind `Tallied`. */
  ghost predicate UsedUp(e: Entries, name: seq<Byte>, n: nat) {
    n <= LAST_TRY && forall t: int :: Tallied(t) ==> Tried(name, n) <= Names11(e)
  }

  lemma {:induction false} OneMoreUsed(e: Entries, name: seq<Byte>, n: nat, short: seq<Byte>)
    requires 0 < n <= LAST_TRY && UsedUp(e, name, n - 1) && Taken(e, short) && |Tail(n)| <= 7
    requires short == Candidate(name, n)
    ensures UsedUp(e, name, n)
  {
    assert Tallied(0);
    TakenIsName(e, short);
  }

  lemma {:induction false} AllUsed(e: Entries, name: seq<Byte>, n: nat)
    requires UsedUp(e, name, n)
    ensures n <= |Uses(e)|
  {
    assert Tallied(0);
    Pigeonhole(e, name, n);
  }

  ghost predicate Generated(name: seq<Byte>, short: seq<Byte>) {
    exists n :: 0 < n <= LAST_TRY && |Tail(n)| <= 7 && short == Candidate(name, n)
  }

  /** One candidate. */
  method TryNumber(fat: Fat, first: nat, name: seq<Byte>, base: seq<Byte>, ext: seq<Byte>, n: nat, ghost cs: seq<nat>,
      ghost e: Entries)
    returns (taken: bool, short: seq<Byte>)
    requires Reads(fat, first, cs, e) && base == Stem(name) && ext == ShortExt(name) && 0 < n <= LAST_TRY
    requires UsedUp(e, name, n - 1)
    modifies fat.dev, fat`memoFirst, fat`memoIndex, fat`memoCluster, fat`linkSteps
    ensures Reads(fat, first, cs, e) && fat.dev.fat == old(fat.dev.fat) && (old(fat.Exact()) ==> fat.Exact())
    ensures Quiet(fat.dev.g, old(View(fat, cs, true)), View(fat, cs, true), {})
    ensures old(!fat.dev.dirty) ==> !fat.dev.dirty
    ensures taken ==> UsedUp(e, name, n)
    ensures !taken ==> |short| == 11 && !Taken(e, short) && ShortCharOk(short[0]) && Generated(name, short)
  {
    short := MakeCandidate(name, base, ext, n);
    taken := ShortNameTaken(fat, first, short, cs, e);
    if taken {
      OneMoreUsed(e, name, n, short);
    }
  }

  /** `generate_short`: the first candidate not in use. It fails only in a directory with 999,999 short
      entries in use, and what it finds never looks like a free or final entry. */
  method GenerateShort(fat: Fat, first: nat, name: seq<Byte>, ghost cs: seq<nat>, ghost e: Entries)
    returns (ok: bool, short: seq<Byte>)
    requires Reads(fat, first, cs, e)
    modifies fat.dev, fat`memoFirst, fat`memoIndex, fat`memoCluster, fat`linkSteps
    ensures Reads(fat, first, cs, e) && fat.dev.fat == old(fat.dev.fat) && (old(fat.Exact()) ==> fat.Exact())
    ensures Quiet(fat.dev.g, old(View(fat, cs, true)), View(fat, cs, true), {})
    ensures old(!fat.dev.dirty) ==> !fat.dev.dirty
    ensures ok ==> |short| == 11 && !Taken(e, short) && ShortCharOk(short[0]) && Generated(name, short)
    ensures !ok ==> LAST_TRY <= |Uses(e)|
  {
    ghost var g, a := fat.dev.g, View(fat, cs, true);
    QuietRefl(g, a, {});
    ok, short := false, [];
    var dot, _ := FindDots(name);
    var base := MakeStem(name, dot);
    var ext := ShortExt(name);
    var n := 1;
    while n < 1_000_000
      invariant 1 <= n <= 1_000_000 && !ok
      invariant Reads(fat, first, cs, e) && fat.dev.fat == a.table && (old(fat.Exact()) ==> fat.Exact())
      invariant old(!fat.dev.dirty) ==> !fat.dev.dirty
      invariant Quiet(g, a, View(fat, cs, true), {})
      invariant UsedUp(e, name, n - 1)
    {
      ghost var b := View(fat, cs, true);
      var taken;
      taken, short := TryNumber(fat, first, name, base, ext, n, cs, e);
      QuietTrans(g, a, b, View(fat, cs, true), {});
      if !taken {
        return true, short;
      }
      n := n + 1;
    }
    AllUsed(e, name, LAST_TRY);
  }

  /** The choice of entries for a name: its short form, or a generated short name and fragments. */
  method ChooseShort(fat: Fat, first: nat, name: seq<Byte>, ghost cs: seq<nat>, ghost e: Entries)
    returns (ok: bool, short: seq<Byte>, nt: Byte, long: bool)
    requires Reads(fat, first, cs, e)
    modifies fat.dev, fat`memoFirst, fat`memoIndex, fat`memoCluster, fat`linkSteps
    ensures Reads(fat, first, cs, e) && fat.dev.fat == old(fat.dev.fat) && (old(fat.Exact()) ==> fat.Exact())
    ensures Quiet(fat.dev.g, old(View(fat, cs, true)), View(fat, cs, true), {})
    ensures old(!fat.dev.dirty) ==> !fat.dev.dirty
    ensures long == Long(e, name)
    ensures ok ==> |short| == 11 && ShortCharOk(short[0]) && !Taken(e, short)
    ensures ok && !long ==> HasShort(name) && short == ShortBytes(name) && nt == ShortFlags(name)
    ensures !ok ==> LAST_TRY <= |Uses(e)|
  {
    ghost var g, a := fat.dev.g, View(fat, cs, true);
    QuietRefl(g, a, {});
    assert Spelled(0);
    var fits, s, flags := MakeShort(name);
    if fits {
      var taken := ShortNameTaken(fat, first, s, cs, e);
      if !taken {
        ShortFirst(name);
        return true, s, flags, false;
      }
    }
    nt, long := 0, true;
    ghost var b := View(fat, cs, true);
    ok, short := GenerateShort(fat, first, name, cs, e);
    QuietTrans(g, a, b, View(fat, cs, true), {});
  }

  ghost predicate Stepped(n: int) { true }

  /** The scan for `n` free entries has come to entry `i` with `run` free ones behind it. */
  ghost predicate Progress(e: Entries, i: nat, run: nat, n: nat) {
    run <= i <= LiveEnd(e) && run < n && forall t: int :: Stepped(t) ==>
      FreeRun(e, i - run, run) && BlockedBefore(e, i - run, n)
  }

  /** The first run of `n` starts at `s`. */
  ghost predicate RunAt(e: Entries, s: nat, n: nat) {
    FreeRun(e, s, n) && BlockedBefore(e, s, n) && s <= LiveEnd(e)
  }

  lemma ProgressOn(e: Entries, i: nat, run: nat, n: nat)
    requires Progress(e, i, run, n) && i < |e| && e[i][0] != ENTRY_END
    ensures e[i][0] == ENTRY_FREE && run + 1 < n ==> Progress(e, i + 1, run + 1, n)
    ensures e[i][0] == ENTRY_FREE && run + 1 == n ==> RunAt(e, i + 1 - n, n)
    ensures e[i][0] != ENTRY_FREE ==> Progress(e, i + 1, 0, n)
  {
    assert Stepped(0);
    if e[i][0] != ENTRY_FREE {
      BlockedBy(e, i, run, n);
    }
  }

  lemma ProgressEnd(e: Entries, i: nat, run: nat, n: nat)
    requires Progress(e, i, run, n) && EndsAt(e, LiveEnd(e)) && (i == |e| || e[i][0] == ENTRY_END)
    ensures i - run <= LiveEnd(e) && FreeRun(e, i - run, run + (|e| - i)) && BlockedBefore(e, i - run, n)
    ensures run + (|e| - i) >= n ==> RunAt(e, i - run, n)
  {
    assert Stepped(0);
  }

  /** The scan of `dir_find_slots`: the first run, or how many entries at the end are free. */
  method ScanSlots(fat: Fat, first: nat, total: nat, count: nat, ghost cs: seq<nat>, ghost e: Entries, ghost c: Index)
    returns (slot: int, run: nat)
    requires Reads(fat, first, cs, e) && 0 < count && Holds(e, c) && total == |e|
    modifies fat.dev, fat`memoFirst, fat`memoIndex, fat`memoCluster, fat`linkSteps
    ensures Reads(fat, first, cs, e) && fat.dev.fat == old(fat.dev.fat) && (old(fat.Exact()) ==> fat.Exact())
    ensures Quiet(fat.dev.g, old(View(fat, cs, true)), View(fat, cs, true), {})
    ensures old(!fat.dev.dirty) ==> !fat.dev.dirty
    ensures slot >= 0 ==> RunAt(e, slot, count)
    ensures slot < 0 ==> run < count && run <= |e| && |e| - run <= LiveEnd(e)
    ensures slot < 0 ==> BlockedBefore(e, |e| - run, count) && FreeRun(e, |e| - run, run)
  {
    ghost var g, a := fat.dev.g, View(fat, cs, true);
    QuietRefl(g, a, {});
    HeldEnd(e, c);
    run := 0;
    var i := 0;
    while i < total
      invariant Reads(fat, first, cs, e) && fat.dev.fat == a.table && (old(fat.Exact()) ==> fat.Exact())
      invariant old(!fat.dev.dirty) ==> !fat.dev.dirty
      invariant Quiet(g, a, View(fat, cs, true), {}) && Progress(e, i, run, count)
    {
      ghost var b := View(fat, cs, true);
      var found, ent, _ := Fetch(fat, first, i, cs, e);
      QuietTrans(g, a, b, View(fat, cs, true), {});
      if ent[0] == ENTRY_END {
        ProgressEnd(e, i, run, count);
        if run + (total - i) >= count {
          return i - run, run;
        }
        return -1, run + (total - i);
      }
      ProgressOn(e, i, run, count);
      if ent[0] == ENTRY_FREE {
        run := run + 1;
        if run >= count {
          return i + 1 - count, run;
        }
      } else {
        run := 0;
      }
      i := i + 1;
    }
    ProgressEnd(e, i, run, count);
    slot := -1;
  }

  /** `populate`: the nodes a remount makes, in the order of their entries. */
  method Populate(fat: Fat, first: nat, ghost cs: seq<nat>, ghost e: Entries) returns (kids: seq<Node>)
    requires Reads(fat, first, cs, e)
    modifies fat.dev, fat`memoFirst, fat`memoIndex, fat`memoCluster, fat`linkSteps
    ensures Reads(fat, first, cs, e) && fat.dev.fat == old(fat.dev.fat) && (old(fat.Exact()) ==> fat.Exact())
    ensures Quiet(fat.dev.g, old(View(fat, cs, true)), View(fat, cs, true), {})
    ensures old(!fat.dev.dirty) ==> !fat.dev.dirty
    ensures Listed(kids, ReadDir(e)) && forall n :: n in kids ==> Storable(n.record)
    ensures old(!fat.dev.dirty) ==> fat.dev.log == old(fat.dev.log)
  {
    ghost var g, a := fat.dev.g, View(fat, cs, true);
    QuietRefl(g, a, {});
    var r := FRESH;
    kids := [];
    var i := 0;
    ListedIs([], map[]);
    while true
      invariant Reads(fat, first, cs, e) && fat.dev.fat == a.table && (old(fat.Exact()) ==> fat.Exact())
      invariant old(!fat.dev.dirty) ==> !fat.dev.dirty
      invariant Quiet(g, a, View(fat, cs, true), {})
      invariant i <= LiveEnd(e) && ScanOk(r.scan) && (old(!fat.dev.dirty) ==> fat.dev.log == old(fat.dev.log))
      invariant Run(FRESH, e, 0, LiveEnd(e)) == Run(r, e, i, LiveEnd(e))
      invariant Listed(kids, r.found) && forall n :: n in kids ==> Storable(n.record) && n.at < i
      decreases |e| - i
    {
      ghost var b := View(fat, cs, true);
      var found, ent, _ := Fetch(fat, first, i, cs, e);
      QuietTrans(g, a, b, View(fat, cs, true), {});
      if !found || ent[0] == ENTRY_END {
        return;
      }
      ghost var before := r;
      r := TakeEntry(r, i, ent);
      PlaceUnused(kids, before.found, i);
      StepFinds(before, i, ent);
      if i in r.found {
        ListedAppend(kids, before.found, Node(i, r.found[i]));
        kids := kids + [Node(i, r.found[i])];
      }
      i := i + 1;
    }
  }
}
