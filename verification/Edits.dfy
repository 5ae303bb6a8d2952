/** What writing, freeing and patching entries, and growing the directory, do to its layout, to what a
    remount reads, and to the uniqueness of short names. */
module Edits {
  import opened Bytes
  import opened Names
  import opened LongNames
  import opened ShortNames
  import opened Layout

  type Index = map<nat, Record>

  // Predicates quantified over one of these stay folded in a proof until it mentions that token.
  ghost predicate Held(n: int) { true }
  ghost predicate Reviewed(n: int) { true }
  ghost predicate Trusted(n: int) { true }
  ghost predicate Compared(n: int) { true }

  ghost function Slots(c: Index): Groups {
    map at | at in c :: c[at].slots
  }

  ghost predicate ReadsItself(e: Entries, at: nat, rec: Record) {
    Group(e, at, rec.slots) && Reading(e, at, rec.slots) == map[at := rec]
  }

  /** The group at `at` is there and reads as `rec`. */
  ghost predicate Faithful(e: Entries, at: nat, rec: Record) {
    forall n: int :: Trusted(n) ==> ReadsItself(e, at, rec)
  }

  lemma FaithfulIs(e: Entries, at: nat, rec: Record)
    ensures Faithful(e, at, rec) <==> ReadsItself(e, at, rec)
  {
    assert Trusted(0);
  }

  lemma FaithfulKept(e: Entries, f: Entries, at: nat, rec: Record)
    requires Group(e, at, rec.slots) && SameGroup(e, f, at, rec.slots)
    ensures Faithful(e, at, rec) <==> Faithful(f, at, rec)
  {
    assert Trusted(0);
    GroupKept(e, f, at, rec.slots);
  }

  /** Remount agreement: the nodes of a directory are those a remount would read exactly when each of
      them reads back as itself. */
  lemma RemountAgrees(e: Entries, c: Index)
    requires LaidOut(e, Slots(c))
    ensures ReadDir(e) == c <==> forall at :: at in c ==> Faithful(e, at, c[at])
  {
    if forall at :: at in c ==> Faithful(e, at, c[at]) {
      forall at | at in c ensures ReadsAt(e, at, Slots(c)[at], c) {
        FaithfulIs(e, at, c[at]);
      }
      RemountReads(e, Slots(c), c);
    }
    RemountIs(e, Slots(c));
    if ReadDir(e) == c {
      forall at | at in c ensures Faithful(e, at, c[at]) {
        assert ReadsAt(e, at, Slots(c)[at], ReadDir(e));
        FaithfulIs(e, at, c[at]);
      }
    }
  }

  /** A remount of `e` reads `c`: folded, see `RemountsIs`. */
  ghost predicate Remounts(e: Entries, c: Index) {
    forall n: int :: Reviewed(n) ==> ReadDir(e) == c
  }

  lemma RemountsIs(e: Entries, c: Index)
    ensures Remounts(e, c) <==> ReadDir(e) == c
  {
    assert Reviewed(0);
  }

  lemma AgreesIf(e: Entries, c: Index)
    requires LaidOut(e, Slots(c))
    ensures Remounts(e, c) <==> forall at :: at in c ==> Faithful(e, at, c[at])
  {
    RemountsIs(e, c);
    RemountAgrees(e, c);
  }

  /** `f` is `e` except at `n` entries from `s`. */
  ghost predicate Spliced(e: Entries, f: Entries, s: nat, n: nat) {
    && s + n <= |e| == |f|
    && forall k :: 0 <= k < |e| && !(s <= k < s + n) ==> f[k] == e[k]
  }

  lemma LiveEndIs(e: Entries, n: nat)
    requires n <= |e| && (n < |e| ==> e[n][0] == ENTRY_END)
    requires forall i :: 0 <= i < n ==> e[i][0] != ENTRY_END
    ensures LiveEnd(e) == n
  {
  }

  ghost predicate EndsAt(e: Entries, n: nat) {
    && n <= |e| && (forall p :: 0 <= p < n ==> e[p][0] != ENTRY_END)
    && (forall p :: n <= p < |e| ==> e[p][0] == ENTRY_END)
  }

  lemma EndOf(e: Entries, g: Groups)
    requires LaidOut(e, g)
    ensures EndsAt(e, LiveEnd(e))
  {
    assert Arrayed(0);
  }

  /** The group of `at` stays as it was. */
  ghost predicate SameGroup(e: Entries, f: Entries, at: nat, slots: nat) {
    && at < |e| && at < LiveEnd(f)
    && forall k :: 0 <= k <= at < k + slots ==> f[k] == e[k]
  }

  /** The groups of `c` stay as they were. */
  ghost predicate KeepsGroups(e: Entries, f: Entries, c: Index) {
    forall at :: at in c ==> SameGroup(e, f, at, c[at].slots)
  }

  lemma GroupKept(e: Entries, f: Entries, at: nat, slots: nat)
    requires Group(e, at, slots) && SameGroup(e, f, at, slots)
    ensures Group(f, at, slots) && Reading(f, at, slots) == Reading(e, at, slots)
  {
    RunLocal(FRESH, e, f, at + 1 - slots, at + 1);
  }

  /** Layouts are told from the groups, the inert entries and the end. */
  lemma Arrange(e: Entries, g: Groups)
    requires EndsAt(e, LiveEnd(e))
    requires forall at :: at in g ==> Group(e, at, g[at])
    requires forall p: nat :: p < LiveEnd(e) && Apart(g, p) ==> Inert(e[p])
    ensures LaidOut(e, g)
  {
  }

  /** The `n` entries from `s` are free, and no end marker comes before them. */
  ghost predicate Vacant(e: Entries, s: nat, n: nat) {
    s + n <= |e| && s <= LiveEnd(e) && forall k :: s <= k < s + n ==> IsFree(e[k])
  }

  /** Entries fit to stand as a group, wherever the directory ends. */
  ghost predicate Grouped(f: Entries, at: nat, slots: nat) {
    && 0 < slots <= at + 1 <= |f| && PlainShort(f[at])
    && forall k :: at + 1 - slots <= k < at ==>
      f[k][0] != ENTRY_FREE && f[k][0] != ENTRY_END && IsFragmentEntry(f[k])
  }

  lemma InsertEnd(e: Entries, f: Entries, s: nat, n: nat)
    requires EndsAt(e, LiveEnd(e)) && Spliced(e, f, s, n) && Vacant(e, s, n) && 0 < n && Grouped(f, s + n - 1, n)
    ensures LiveEnd(f) == (if LiveEnd(e) < s + n then s + n else LiveEnd(e)) && EndsAt(f, LiveEnd(f))
    ensures Group(f, s + n - 1, n)
  {
    var m := if LiveEnd(e) < s + n then s + n else LiveEnd(e);
    forall p | 0 <= p < |f| ensures f[p][0] == ENTRY_END <==> m <= p {
      if s <= p < s + n {
        assert p == s + n - 1 ==> PlainShort(f[p]);
      } else {
        assert f[p] == e[p];
      }
    }
    LiveEndIs(f, m);
  }

  lemma InsertSame(e: Entries, f: Entries, s: nat, n: nat, at: nat, slots: nat)
    requires EndsAt(e, LiveEnd(e)) && Spliced(e, f, s, n) && Vacant(e, s, n) && 0 < n && Grouped(f, s + n - 1, n)
    requires Group(e, at, slots)
    ensures at != s + n - 1 && SameGroup(e, f, at, slots)
  {
    InsertEnd(e, f, s, n);
    forall k | 0 <= k <= at < k + slots ensures f[k] == e[k] {
      assert !IsFree(e[k]);
    }
    assert at < at + slots;
  }

  lemma InsertInert(e: Entries, f: Entries, g: Groups, s: nat, n: nat, p: nat)
    requires LaidOut(e, g) && Spliced(e, f, s, n) && Vacant(e, s, n) && 0 < n && Grouped(f, s + n - 1, n)
    requires p < LiveEnd(f) && Apart(g[s + n - 1 := n], p) && s + n - 1 !in g
    ensures Inert(f[p])
  {
    EndOf(e, g);
    InsertEnd(e, f, s, n);
    assert !Covers(g[s + n - 1 := n], s + n - 1, p);
    ApartLess(g, g[s + n - 1 := n], p);
    InertAt(e, g, p);
  }

  lemma InsertGroup(e: Entries, f: Entries, g: Groups, s: nat, n: nat, at: nat)
    requires LaidOut(e, g) && Spliced(e, f, s, n) && Vacant(e, s, n) && 0 < n && Grouped(f, s + n - 1, n) && at in g
    ensures at != s + n - 1 && SameGroup(e, f, at, g[at]) && Group(f, at, g[at])
  {
    EndOf(e, g);
    GroupOf(e, g, at);
    InsertSame(e, f, s, n, at, g[at]);
    GroupKept(e, f, at, g[at]);
  }

  lemma InsertLaidOut(e: Entries, f: Entries, g: Groups, s: nat, n: nat)
    requires LaidOut(e, g) && Spliced(e, f, s, n) && Vacant(e, s, n) && 0 < n && Grouped(f, s + n - 1, n)
    ensures LaidOut(f, g[s + n - 1 := n]) && Group(f, s + n - 1, n) && s + n - 1 !in g
  {
    var h := g[s + n - 1 := n];
    assert EndsAt(f, LiveEnd(f)) && Group(f, s + n - 1, n) by {
      EndOf(e, g);
      InsertEnd(e, f, s, n);
    }
    assert s + n - 1 !in g by {
      if s + n - 1 in g {
        InsertGroup(e, f, g, s, n, s + n - 1);
      }
    }
    forall at | at in h ensures Group(f, at, h[at]) {
      if at != s + n - 1 {
        InsertGroup(e, f, g, s, n, at);
      }
    }
    forall p: nat | p < LiveEnd(f) && Apart(h, p) ensures Inert(f[p]) {
      InsertInert(e, f, g, s, n, p);
    }
    Arrange(f, h);
  }

  /** A new group over free entries: a file is added and every other one stays. */
  lemma Inserted(e: Entries, f: Entries, c: Index, s: nat, n: nat, rec: Record)
    requires LaidOut(e, Slots(c)) && Spliced(e, f, s, n) && Vacant(e, s, n) && 0 < n == rec.slots
    requires Grouped(f, s + n - 1, n)
    ensures s + n - 1 !in c && LaidOut(f, Slots(c[s + n - 1 := rec])) && Group(f, s + n - 1, n)
    ensures KeepsGroups(e, f, c)
  {
    InsertLaidOut(e, f, Slots(c), s, n);
    assert Slots(c[s + n - 1 := rec]) == Slots(c)[s + n - 1 := n];
    forall at | at in c ensures SameGroup(e, f, at, c[at].slots) {
      InsertGroup(e, f, Slots(c), s, n, at);
    }
  }

  lemma ApartLess(g: Groups, h: Groups, p: nat)
    requires Apart(h, p) && forall at :: at in g ==> at in h && h[at] == g[at]
    ensures Apart(g, p)
  {
    forall at | at in g ensures !Covers(g, at, p) {
      assert !Covers(h, at, p);
    }
  }

  /** After the insertion a remount reads the new file as well, if it reads back as itself. */
  lemma InsertedReads(e: Entries, f: Entries, c: Index, at: nat, rec: Record)
    requires LaidOut(e, Slots(c)) && at !in c && LaidOut(f, Slots(c[at := rec])) && KeepsGroups(e, f, c)
    ensures Remounts(f, c[at := rec]) <==> Remounts(e, c) && Faithful(f, at, rec)
    ensures forall b :: b in c ==> (Faithful(e, b, c[b]) <==> Faithful(f, b, c[b]))
  {
    KeptFaithful(e, f, Slots(c), c);
    AgreesIf(e, c);
    AgreesIf(f, c[at := rec]);
    OneMore(f, c, at, c[at := rec]);
  }

  lemma OneMore(f: Entries, c: Index, at: nat, d: Index)
    requires at !in c && at in d && d == c[at := d[at]]
    ensures (forall b :: b in d ==> Faithful(f, b, d[b])) <==>
            (forall b :: b in c ==> Faithful(f, b, c[b])) && Faithful(f, at, d[at])
  {
    assert forall b :: b in c ==> b in d && d[b] == c[b];
  }

  lemma RemovedSame(e: Entries, f: Entries, c: Index, at: nat, b: nat)
    requires LaidOut(e, Slots(c)) && at in c && b in c && b != at
    requires c[at].slots <= at + 1 && Spliced(e, f, at + 1 - c[at].slots, c[at].slots) && LiveEnd(f) == LiveEnd(e)
    ensures Group(e, b, c[b].slots) && SameGroup(e, f, b, c[b].slots)
  {
    GroupOf(e, Slots(c), at);
    GroupOf(e, Slots(c), b);
    if Covers(Slots(c), b, at) {
      OneInGroup(e, Slots(c), b, at);
    }
    if Covers(Slots(c), at, b) {
      OneInGroup(e, Slots(c), at, b);
    }
  }

  /** Freeing a group: its file goes and every other one stays. */
  lemma Removed(e: Entries, f: Entries, c: Index, at: nat)
    requires LaidOut(e, Slots(c)) && at in c && c[at].slots <= at + 1
    requires Spliced(e, f, at + 1 - c[at].slots, c[at].slots)
    requires forall k :: 0 <= k <= at < k + c[at].slots ==> f[k][0] == ENTRY_FREE
    ensures LaidOut(f, Slots(c - {at})) && LiveEnd(f) == LiveEnd(e)
    ensures KeepsGroups(e, f, c - {at})
  {
    var g, h := Slots(c), Slots(c - {at});
    EndOf(e, g);
    GroupOf(e, g, at);
    RemovedEnd(e, f, at, c[at].slots);
    forall b | b in c && b != at ensures SameGroup(e, f, b, c[b].slots) && Group(f, b, c[b].slots) {
      RemovedSame(e, f, c, at, b);
      GroupKept(e, f, b, c[b].slots);
    }
    forall p: nat | p < LiveEnd(f) && Apart(h, p) ensures Inert(f[p]) {
      if !(p <= at < p + c[at].slots) {
        ApartMore(g, h, at, p);
        InertAt(e, g, p);
      }
    }
    Arrange(f, h);
  }

  lemma ApartMore(g: Groups, h: Groups, at: nat, p: nat)
    requires Apart(h, p) && at in g && !Covers(g, at, p)
    requires forall b :: b in g && b != at ==> b in h && h[b] == g[b]
    ensures Apart(g, p)
  {
    forall b | b in g ensures !Covers(g, b, p) {
      assert b != at ==> !Covers(h, b, p);
    }
  }

  lemma RemovedEnd(e: Entries, f: Entries, at: nat, slots: nat)
    requires EndsAt(e, LiveEnd(e)) && slots <= at + 1 <= LiveEnd(e) && Spliced(e, f, at + 1 - slots, slots)
    requires forall k :: 0 <= k <= at < k + slots ==> f[k][0] == ENTRY_FREE
    ensures LiveEnd(f) == LiveEnd(e) && EndsAt(f, LiveEnd(f))
  {
    forall p | 0 <= p < |f| ensures f[p][0] == ENTRY_END <==> LiveEnd(e) <= p {
      if !(p <= at < p + slots) {
        assert f[p] == e[p];
      }
    }
    LiveEndIs(f, LiveEnd(e));
  }

  /** The rest of the directory reads as before. */
  lemma RemovedReads(e: Entries, f: Entries, c: Index, at: nat)
    requires LaidOut(e, Slots(c)) && at in c && LaidOut(f, Slots(c - {at})) && KeepsGroups(e, f, c - {at})
    ensures Remounts(e, c) <==> Remounts(f, c - {at}) && Faithful(e, at, c[at])
  {
    var d := c - {at};
    AgreesIf(e, c);
    AgreesIf(f, d);
    KeptFaithful(e, f, Slots(c), d);
    assert forall b :: b in c <==> b in d || b == at;
  }

  lemma KeptFaithful(e: Entries, f: Entries, g: Groups, d: Index)
    requires LaidOut(e, g) && KeepsGroups(e, f, d) && forall b :: b in d ==> b in g && g[b] == d[b].slots
    ensures forall b :: b in d ==> (Faithful(e, b, d[b]) <==> Faithful(f, b, d[b]))
  {
    forall b | b in d ensures Faithful(e, b, d[b]) <==> Faithful(f, b, d[b]) {
      GroupOf(e, g, b);
      FaithfulKept(e, f, b, d[b]);
    }
  }

  /** A short entry rewritten behind its name: the name, the kind and the case bits stay. */
  ghost predicate Rewritten(e: Entries, f: Entries, p: nat) {
    && p < |e| == |f| && f == e[p := f[p]] && f[p][..13] == e[p][..13]
    && !IsFragmentEntry(e[p]) && e[p][0] != ENTRY_END
  }

  lemma PatchedHead(e: Entries, f: Entries, p: nat)
    requires Rewritten(e, f, p)
    ensures f[p][..11] == e[p][..11] && f[p][0] == e[p][0] && f[p][11] == e[p][11] && f[p][12] == e[p][12]
  {
    assert f[p][..11] == f[p][..13][..11] && e[p][..11] == e[p][..13][..11];
    assert f[p][0] == f[p][..13][0] && f[p][11] == f[p][..13][11] && f[p][12] == f[p][..13][12];
    assert e[p][0] == e[p][..13][0] && e[p][11] == e[p][..13][11] && e[p][12] == e[p][..13][12];
  }

  lemma PatchedEnd(e: Entries, f: Entries, p: nat)
    requires EndsAt(e, LiveEnd(e)) && Rewritten(e, f, p)
    ensures LiveEnd(f) == LiveEnd(e) && EndsAt(f, LiveEnd(f))
  {
    PatchedHead(e, f, p);
    LiveEndIs(f, LiveEnd(e));
  }

  lemma PatchedLayout(e: Entries, f: Entries, g: Groups, p: nat)
    requires LaidOut(e, g) && Rewritten(e, f, p)
    ensures LaidOut(f, g) && LiveEnd(f) == LiveEnd(e)
  {
    EndOf(e, g);
    PatchedHead(e, f, p);
    PatchedEnd(e, f, p);
    forall at | at in g ensures Group(f, at, g[at]) {
      GroupOf(e, g, at);
    }
    forall q: nat | q < LiveEnd(f) && Apart(g, q) ensures Inert(f[q]) {
      InertAt(e, g, q);
      if q == p {
        PatchedInert(e[p], f[p]);
      }
    }
    Arrange(f, g);
  }

  lemma PatchedInert(x: DirEntry, y: DirEntry)
    requires Inert(x) && !IsFragmentEntry(x)
    requires y[..11] == x[..11] && y[0] == x[0] && y[11] == x[11] && y[12] == x[12]
    ensures Inert(y)
  {
    assert EntryName(Idle, y) == EntryName(Idle, x);
    assert 0 !in FRESH.found;
  }

  /** Entries of other groups do not notice the patch. */
  lemma PatchedOther(e: Entries, f: Entries, g: Groups, p: nat, at: nat)
    requires LaidOut(e, g) && Rewritten(e, f, p) && at in g && at != p
    ensures Group(e, at, g[at]) && SameGroup(e, f, at, g[at])
  {
    EndOf(e, g);
    PatchedEnd(e, f, p);
    GroupOf(e, g, at);
    forall k | 0 <= k <= at < k + g[at] ensures f[k] == e[k] {
      assert k < at ==> IsFragmentEntry(e[k]);
    }
  }

  lemma PatchedReading(e: Entries, f: Entries, at: nat, rec: Record)
    requires Faithful(e, at, rec) && Rewritten(e, f, at) && at < LiveEnd(f)
    ensures Faithful(f, at, Fields(f[at], rec.name, rec.slots))
  {
    FaithfulIs(e, at, rec);
    FaithfulIs(f, at, Fields(f[at], rec.name, rec.slots));
    var i := at + 1 - rec.slots;
    PatchedHead(e, f, at);
    RunLocal(FRESH, e, f, i, at);
    RunLast(FRESH, e, i, at);
    RunLast(FRESH, f, i, at);
    FragmentsFindNothing(Idle, e, i, at);
    StepPatched(Run(FRESH, e, i, at), at, e[at], f[at], rec);
  }

  lemma StepPatched(q: Reader, at: nat, x: DirEntry, y: DirEntry, rec: Record)
    requires q.found == map[] && ScanOk(q.scan) && PlainShort(x)
    requires y[..11] == x[..11] && y[0] == x[0] && y[11] == x[11] && y[12] == x[12]
    requires Step(q, at, x).found == map[at := rec]
    ensures Step(q, at, y).found == map[at := Fields(y, rec.name, rec.slots)]
  {
    assert map[at := rec][at] == rec;
    assert at !in q.found;
    assert EntryName(q.scan, y) == EntryName(q.scan, x);
    assert rec == RecordOf(q.scan, x);
  }

  /** A node that reads back as itself has the fields of its entry. */
  lemma FaithfulFields(e: Entries, at: nat, rec: Record)
    requires Faithful(e, at, rec)
    ensures at < |e| && rec == Fields(e[at], rec.name, rec.slots)
  {
    FaithfulIs(e, at, rec);
    var i := at + 1 - rec.slots;
    RunLast(FRESH, e, i, at);
    FragmentsFindNothing(Idle, e, i, at);
    assert map[at := rec][at] == rec;
    assert at !in Run(FRESH, e, i, at).found;
  }

  /** Rewriting the short entry of a file: a remount reads its new fields under its old name. */
  lemma PatchedReads(e: Entries, f: Entries, c: Index, at: nat)
    requires LaidOut(e, Slots(c)) && at in c && Rewritten(e, f, at) && Remounts(e, c)
    ensures Remounts(f, c[at := Fields(f[at], c[at].name, c[at].slots)])
  {
    var d := c[at := Fields(f[at], c[at].name, c[at].slots)];
    assert Slots(d) == Slots(c);
    PatchedLayout(e, f, Slots(c), at);
    AgreesIf(e, c);
    AgreesIf(f, d);
    forall b | b in d ensures Faithful(f, b, d[b]) {
      assert Faithful(e, b, c[b]);
      if b == at {
        GroupOf(e, Slots(c), at);
        PatchedReading(e, f, at, c[at]);
      } else {
        PatchedOther(e, f, Slots(c), at, b);
        FaithfulKept(e, f, b, c[b]);
      }
    }
  }

  /** Rewriting an entry that is no file's, such as "..", changes nothing a remount reads. */
  lemma PatchedSkip(e: Entries, f: Entries, c: Index, p: nat)
    requires LaidOut(e, Slots(c)) && p !in c && Rewritten(e, f, p) && Remounts(e, c)
    ensures Remounts(f, c)
  {
    PatchedLayout(e, f, Slots(c), p);
    AgreesIf(e, c);
    AgreesIf(f, c);
    forall b | b in c ensures Faithful(f, b, c[b]) {
      PatchedOther(e, f, Slots(c), p, b);
      FaithfulKept(e, f, b, c[b]);
    }
  }

  function Blank(n: nat): (r: Entries)
    ensures |r| == n && forall k :: 0 <= k < n ==> r[k][0] == ENTRY_END
  {
    seq(n, _ => seq(32, _ => 0))
  }

  /** Growing by zeroed clusters. */
  lemma Extended(e: Entries, c: Index, n: nat)
    requires LaidOut(e, Slots(c))
    ensures LaidOut(e + Blank(n), Slots(c)) && LiveEnd(e + Blank(n)) == LiveEnd(e)
    ensures ReadDir(e + Blank(n)) == ReadDir(e)
  {
    var f, g := e + Blank(n), Slots(c);
    EndOf(e, g);
    LiveEndIs(f, LiveEnd(e));
    forall at | at in g ensures Group(f, at, g[at]) {
      GroupOf(e, g, at);
    }
    forall p: nat | p < LiveEnd(f) && Apart(g, p) ensures Inert(f[p]) {
      InertAt(e, g, p);
    }
    Arrange(f, g);
    RunLocal(FRESH, e, f, 0, LiveEnd(e));
  }

  ghost predicate ShortsDiffer(e: Entries) {
    forall p: nat, q: nat :: InUse(e, p) && InUse(e, q) && e[p][..11] == e[q][..11] ==> p == q
  }

  /** No two short entries in use share their eleven bytes: folded, a proof opens it with `assert Compared(0)`. */
  ghost predicate ShortUnique(e: Entries) {
    forall n: int :: Compared(n) ==> ShortsDiffer(e)
  }

  lemma FewerShorts(e: Entries, f: Entries)
    requires ShortUnique(e) && forall p: nat :: InUse(f, p) ==> InUse(e, p) && f[p][..11] == e[p][..11]
    ensures ShortUnique(f)
  {
    assert Compared(0);
  }

  lemma InsertedUnique(e: Entries, f: Entries, g: Groups, s: nat, n: nat)
    requires LaidOut(e, g) && Spliced(e, f, s, n) && Vacant(e, s, n) && 0 < n && Grouped(f, s + n - 1, n)
    requires ShortUnique(e) && !Taken(e, f[s + n - 1][..11])
    ensures ShortUnique(f)
  {
    EndOf(e, g);
    InsertEnd(e, f, s, n);
    forall p: nat | InUse(f, p) && p != s + n - 1 ensures InUse(e, p) && f[p] == e[p] {
      assert !IsFragmentEntry(f[p]);
    }
    assert Compared(0);
    assert ShortsDiffer(f) by {
      forall p: nat | InUse(f, p) && p != s + n - 1 ensures f[p][..11] != f[s + n - 1][..11] {
        assert InUse(e, p) && f[p] == e[p];
      }
    }
  }

  /** The directory holds exactly the files of `c`: the layout by their places, folded behind `Held`. */
  ghost predicate Holds(e: Entries, c: Index) {
    forall n: int :: Held(n) ==> LaidOut(e, Slots(c))
  }

  lemma HoldsIs(e: Entries, c: Index)
    ensures Holds(e, c) <==> LaidOut(e, Slots(c))
  {
    assert Held(0);
  }

  lemma HeldAgrees(e: Entries, c: Index)
    requires Holds(e, c)
    ensures Remounts(e, c) <==> forall at :: at in c ==> Faithful(e, at, c[at])
  {
    HoldsIs(e, c);
    AgreesIf(e, c);
  }

  lemma HeldGroup(e: Entries, c: Index, at: nat)
    requires Holds(e, c) && at in c
    ensures Group(e, at, c[at].slots)
  {
    HoldsIs(e, c);
    GroupOf(e, Slots(c), at);
  }

  lemma HeldEnd(e: Entries, c: Index)
    requires Holds(e, c)
    ensures EndsAt(e, LiveEnd(e))
  {
    HoldsIs(e, c);
    EndOf(e, Slots(c));
  }

  /** Freeing the entries of a file. */
  lemma HeldRemoved(e: Entries, f: Entries, c: Index, at: nat)
    requires Holds(e, c) && at in c && c[at].slots <= at + 1
    requires Spliced(e, f, at + 1 - c[at].slots, c[at].slots)
    requires forall k :: 0 <= k <= at < k + c[at].slots ==> f[k][0] == ENTRY_FREE
    ensures Holds(f, c - {at}) && LiveEnd(f) == LiveEnd(e)
    ensures Remounts(e, c) <==> Remounts(f, c - {at}) && Faithful(e, at, c[at])
  {
    HoldsIs(e, c);
    Removed(e, f, c, at);
    RemovedReads(e, f, c, at);
    HoldsIs(f, c - {at});
  }

  lemma HeldPatched(e: Entries, f: Entries, c: Index, p: nat)
    requires Holds(e, c) && Rewritten(e, f, p)
    ensures Holds(f, c) && LiveEnd(f) == LiveEnd(e)
    ensures p !in c && Remounts(e, c) ==> Remounts(f, c)
    ensures p in c && Remounts(e, c) ==>
      c[p] == Fields(e[p], c[p].name, c[p].slots) && Remounts(f, c[p := Fields(f[p], c[p].name, c[p].slots)])
  {
    HoldsIs(e, c);
    PatchedLayout(e, f, Slots(c), p);
    HoldsIs(f, c);
    if Remounts(e, c) {
      if p in c {
        PatchedReads(e, f, c, p);
        AgreesIf(e, c);
        FaithfulFields(e, p, c[p]);
      } else {
        PatchedSkip(e, f, c, p);
      }
    }
  }

  /** Nodes that were not rewritten read as they did; one that was reads as its entry now says. */
  lemma HeldPatchedReads(e: Entries, f: Entries, c: Index, p: nat)
    requires Holds(e, c) && Rewritten(e, f, p)
    ensures forall b :: b in c && b != p ==> (Faithful(e, b, c[b]) <==> Faithful(f, b, c[b]))
    ensures p in c && Faithful(e, p, c[p]) ==> Faithful(f, p, Fields(f[p], c[p].name, c[p].slots))
  {
    HoldsIs(e, c);
    PatchedLayout(e, f, Slots(c), p);
    forall b | b in c && b != p ensures Faithful(e, b, c[b]) <==> Faithful(f, b, c[b]) {
      PatchedOther(e, f, Slots(c), p, b);
      FaithfulKept(e, f, b, c[b]);
    }
    if p in c && Faithful(e, p, c[p]) {
      GroupOf(e, Slots(c), p);
      PatchedReading(e, f, p, c[p]);
    }
  }

  lemma HeldExtended(e: Entries, c: Index, n: nat)
    requires Holds(e, c)
    ensures Holds(e + Blank(n), c) && LiveEnd(e + Blank(n)) == LiveEnd(e)
    ensures Remounts(e + Blank(n), c) <==> Remounts(e, c)
  {
    HoldsIs(e, c);
    Extended(e, c, n);
    HoldsIs(e + Blank(n), c);
    RemountsIs(e, c);
    RemountsIs(e + Blank(n), c);
  }

  lemma HeldSame(e: Entries, c: Index, at: nat, rec: Record)
    requires Holds(e, c) && at in c && c[at].slots == rec.slots
    ensures Holds(e, c[at := rec])
  {
    HoldsIs(e, c);
    HoldsIs(e, c[at := rec]);
    assert Slots(c[at := rec]) == Slots(c);
  }
}
