/** How the entries of a directory hang together: each file has its fragments and its short entry side
    by side, everything else is skipped by the scan, and nothing follows the end marker. What one
    operation does to the entries is stated here on values (kernel/fat32.c:603-722, 974-1075,
    1283-1307). */
module Layout {
  import opened Bytes
  import opened Names
  import opened LongNames
  import opened ShortNames

  type Entries = seq<DirEntry>

  /** The files of a directory: the index of each short entry, and how many entries the file has. */
  type Groups = map<nat, nat>

  predicate IsFree(e: DirEntry) {
    e[0] == ENTRY_FREE || e[0] == ENTRY_END
  }

  /** An entry that a scan with nothing pending passes over: free, "." and "..", the label, a fragment
      that does not start a name. */
  predicate Inert(e: DirEntry) {
    Step(FRESH, 0, e) == FRESH
  }

  /** The `slots` entries up to `at` are live fragments followed by a short entry. */
  ghost predicate Group(entries: Entries, at: nat, slots: nat) {
    && 0 < slots <= at + 1 <= LiveEnd(entries)
    && PlainShort(entries[at])
    && forall k :: at + 1 - slots <= k < at ==> entries[k][0] != ENTRY_FREE && IsFragmentEntry(entries[k])
  }

  ghost predicate Covers(groups: Groups, at: nat, p: nat) {
    at in groups && p <= at < p + groups[at]
  }

  ghost predicate Arrayed(n: int) { true }

  ghost predicate Apart(groups: Groups, p: nat) {
    forall at :: at in groups ==> !Covers(groups, at, p)
  }

  ghost predicate Arranged(entries: Entries, groups: Groups) {
    && (forall at :: at in groups ==> Group(entries, at, groups[at]))
    && (forall p: nat :: p < LiveEnd(entries) && Apart(groups, p) ==> Inert(entries[p]))
    && (forall p: nat :: LiveEnd(entries) <= p < |entries| ==> entries[p][0] == ENTRY_END)
  }

  /** `Arranged`, folded: a proof opens it with `assert Arrayed(0)`. */
  ghost predicate LaidOut(entries: Entries, groups: Groups) {
    forall n: nat :: Arrayed(n) ==> Arranged(entries, groups)
  }

  lemma GroupOf(entries: Entries, groups: Groups, at: nat)
    requires LaidOut(entries, groups) && at in groups
    ensures Group(entries, at, groups[at])
  {
    assert Arrayed(0);
  }

  lemma InertAt(entries: Entries, groups: Groups, p: nat)
    requires LaidOut(entries, groups) && p < LiveEnd(entries) && Apart(groups, p)
    ensures Inert(entries[p])
  {
    assert Arrayed(0);
  }

  /** What a scan makes of the group that ends at `at`: nothing, or the node of its short entry. */
  function Reading(entries: Entries, at: nat, slots: nat): map<nat, Record>
    requires 0 < slots <= at + 1 <= |entries|
  {
    Run(FRESH, entries, at + 1 - slots, at + 1).found
  }

  lemma {:induction false} RunLocal(r: Reader, e: Entries, f: Entries, i: nat, j: nat)
    requires i <= j <= |e| && j <= |f| && ScanOk(r.scan)
    requires forall k :: i <= k < j ==> e[k] == f[k]
    ensures Run(r, e, i, j) == Run(r, f, i, j)
    decreases j - i
  {
    if i < j {
      RunLocal(Step(r, i, e[i]), e, f, i + 1, j);
    }
  }

  lemma MapAdds(found: map<nat, Record>, i: nat, rec: Record)
    ensures found + map[] == found && found[i := rec] == found + map[i := rec] && map[][i := rec] == map[i := rec]
  {
  }

  /** Nodes already made do not influence the scan. */
  lemma StepAdds(s: Scan, found: map<nat, Record>, i: nat, ent: DirEntry)
    requires ScanOk(s)
    ensures var q := Step(Reader(s, map[]), i, ent);
      Step(Reader(s, found), i, ent) == Reader(q.scan, found + q.found)
  {
    MapAdds(found, i, RecordOf(s, ent));
  }

  lemma {:induction false} RunAdds(s: Scan, found: map<nat, Record>, e: Entries, i: nat, j: nat)
    requires i <= j <= |e| && ScanOk(s)
    ensures var q := Run(Reader(s, map[]), e, i, j);
      Run(Reader(s, found), e, i, j) == Reader(q.scan, found + q.found)
    decreases j - i
  {
    if i < j {
      var t := Step(Reader(s, map[]), i, e[i]);
      StepAdds(s, found, i, e[i]);
      RunAdds(t.scan, found + t.found, e, i + 1, j);
      RunAdds(t.scan, t.found, e, i + 1, j);
    } else {
      assert found + map[] == found;
    }
  }

  lemma {:induction false} FragmentsFindNothing(s: Scan, e: Entries, i: nat, j: nat)
    requires i <= j <= |e| && ScanOk(s)
    requires forall k :: i <= k < j ==> e[k][0] != ENTRY_FREE && IsFragmentEntry(e[k])
    ensures Run(Reader(s, map[]), e, i, j).found == map[]
    decreases j - i
  {
    if i < j {
      FragmentsFindNothing(OnFragment(s, e[i]), e, i + 1, j);
    }
  }

  /** The scan of a group ends with nothing pending and makes at most the node of its short entry. */
  lemma GroupRun(entries: Entries, at: nat, slots: nat, found: map<nat, Record>)
    requires Group(entries, at, slots)
    ensures Run(Reader(Idle, found), entries, at + 1 - slots, at + 1) ==
      Reader(Idle, found + Reading(entries, at, slots))
    ensures Reading(entries, at, slots).Keys <= {at}
  {
    var i := at + 1 - slots;
    FragmentsFindNothing(Idle, entries, i, at);
    RunLast(FRESH, entries, i, at);
    ShortStep(Run(FRESH, entries, i, at), at, entries[at]);
    RunAdds(Idle, found, entries, i, at + 1);
  }

  lemma ShortStep(q: Reader, at: nat, ent: DirEntry)
    requires ScanOk(q.scan) && q.found == map[] && PlainShort(ent)
    ensures Step(q, at, ent).scan == Idle && Step(q, at, ent).found.Keys <= {at}
  {
  }

  /** `p` lies between groups. */
  ghost predicate Boundary(groups: Groups, p: nat) {
    forall at :: at in groups ==> at < p || p + groups[at] <= at + 1
  }

  lemma OneInGroup(entries: Entries, groups: Groups, at: nat, b: nat)
    requires LaidOut(entries, groups) && at in groups && b in groups && Covers(groups, at, b)
    ensures b == at
  {
    GroupOf(entries, groups, at);
    GroupOf(entries, groups, b);
    assert PlainShort(entries[b]);
  }

  lemma AfterGroup(entries: Entries, groups: Groups, at: nat)
    requires LaidOut(entries, groups) && at in groups
    ensures Boundary(groups, at + 1)
  {
    forall b | b in groups ensures b < at + 1 || at + 1 + groups[b] <= b + 1 {
      if Covers(groups, b, at) {
        OneInGroup(entries, groups, b, at);
      }
    }
  }

  ghost function Below(c: map<nat, Record>, p: nat): map<nat, Record> {
    map at | at in c && at < p :: c[at]
  }

  ghost function Single(c: map<nat, Record>, at: nat): map<nat, Record> {
    if at in c then map[at := c[at]] else map[]
  }

  ghost predicate ReadsAt(entries: Entries, at: nat, slots: nat, c: map<nat, Record>) {
    Group(entries, at, slots) && Reading(entries, at, slots) == Single(c, at)
  }

  /** Each group reads as `c` says, and `c` says no more. */
  ghost predicate ReadsAs(entries: Entries, groups: Groups, c: map<nat, Record>) {
    c.Keys <= groups.Keys && forall at :: at in groups ==> ReadsAt(entries, at, groups[at], c)
  }

  /** The scan moves from one boundary to a later one: past a group, or past one inert entry. */
  lemma NextStop(entries: Entries, groups: Groups, c: map<nat, Record>, p: nat) returns (q: nat)
    requires LaidOut(entries, groups) && ReadsAs(entries, groups, c)
    requires p < LiveEnd(entries) && Boundary(groups, p)
    ensures p < q <= LiveEnd(entries) && Boundary(groups, q)
    ensures Run(Reader(Idle, Below(c, p)), entries, p, q) == Reader(Idle, Below(c, q))
  {
    if at :| at in groups && Covers(groups, at, p) {
      q := at + 1;
      GroupBelow(entries, groups, c, p, at);
      AfterGroup(entries, groups, at);
    } else {
      q := p + 1;
      InertBoundary(groups, p);
      InertBelow(entries, groups, c, p);
    }
  }

  lemma GroupBelow(entries: Entries, groups: Groups, c: map<nat, Record>, p: nat, at: nat)
    requires LaidOut(entries, groups) && ReadsAs(entries, groups, c)
    requires Boundary(groups, p) && at in groups && Covers(groups, at, p)
    ensures p <= at < LiveEnd(entries)
    ensures Run(Reader(Idle, Below(c, p)), entries, p, at + 1) == Reader(Idle, Below(c, at + 1))
  {
    assert ReadsAt(entries, at, groups[at], c);
    GroupRun(entries, at, groups[at], Below(c, p));
    BelowNext(entries, groups, c, p, at);
  }

  lemma InertBelow(entries: Entries, groups: Groups, c: map<nat, Record>, p: nat)
    requires LaidOut(entries, groups) && c.Keys <= groups.Keys && p < LiveEnd(entries) && Apart(groups, p)
    ensures Run(Reader(Idle, Below(c, p)), entries, p, p + 1) == Reader(Idle, Below(c, p + 1))
  {
    assert p !in groups by {
      if p in groups {
        GroupOf(entries, groups, p);
        assert Covers(groups, p, p);
      }
    }
    assert Below(c, p) == Below(c, p + 1);
    InertAt(entries, groups, p);
    InertStep(entries[p], p, Below(c, p));
  }

  lemma InertStep(e: DirEntry, i: nat, found: map<nat, Record>)
    requires Inert(e)
    ensures Step(Reader(Idle, found), i, e) == Reader(Idle, found)
  {
    assert 0 !in FRESH.found;
  }

  lemma {:induction false} ScanFrom(entries: Entries, groups: Groups, c: map<nat, Record>, p: nat)
    requires LaidOut(entries, groups) && ReadsAs(entries, groups, c)
    requires p <= LiveEnd(entries) && Boundary(groups, p)
    ensures Run(Reader(Idle, Below(c, p)), entries, p, LiveEnd(entries)) == Reader(Idle, c)
    decreases LiveEnd(entries) - p
  {
    if p == LiveEnd(entries) {
      AllBelow(entries, groups, c);
    } else {
      var q := NextStop(entries, groups, c, p);
      ScanFrom(entries, groups, c, q);
      RunSplit(Reader(Idle, Below(c, p)), entries, p, q, LiveEnd(entries));
    }
  }

  lemma AllBelow(entries: Entries, groups: Groups, c: map<nat, Record>)
    requires LaidOut(entries, groups) && c.Keys <= groups.Keys
    ensures Below(c, LiveEnd(entries)) == c
  {
    forall at | at in c ensures at < LiveEnd(entries) {
      assert at in groups;
      GroupOf(entries, groups, at);
    }
  }

  lemma InertBoundary(groups: Groups, p: nat)
    requires Boundary(groups, p) && Apart(groups, p)
    ensures Boundary(groups, p + 1)
  {
    forall at | at in groups ensures at < p + 1 || p + 1 + groups[at] <= at + 1 {
      assert !Covers(groups, at, p);
    }
  }

  lemma BelowNext(entries: Entries, groups: Groups, c: map<nat, Record>, p: nat, at: nat)
    requires LaidOut(entries, groups) && c.Keys <= groups.Keys
    requires Boundary(groups, p) && at in groups && Covers(groups, at, p)
    ensures p == at + 1 - groups[at]
    ensures Below(c, at + 1) == Below(c, p) + Single(c, at)
  {
    GroupOf(entries, groups, at);
    forall b | b in c && p <= b <= at ensures b == at {
      OneInGroup(entries, groups, at, b);
    }
  }

  /** A remount reads exactly what the groups read as. */
  lemma RemountReads(entries: Entries, groups: Groups, c: map<nat, Record>)
    requires LaidOut(entries, groups) && ReadsAs(entries, groups, c)
    ensures ReadDir(entries) == c
  {
    assert Boundary(groups, 0) by {
      forall at | at in groups ensures 0 + groups[at] <= at + 1 {
        GroupOf(entries, groups, at);
      }
    }
    assert Below(c, 0) == map[];
    ScanFrom(entries, groups, c, 0);
  }

  ghost predicate ReadsSome(entries: Entries, at: nat, slots: nat) {
    Group(entries, at, slots) && at in Reading(entries, at, slots)
  }

  /** Conversely, the groups read as whatever a remount reads. */
  lemma RemountIs(entries: Entries, groups: Groups)
    requires LaidOut(entries, groups)
    ensures ReadsAs(entries, groups, ReadDir(entries))
  {
    var c := map at | at in groups && ReadsSome(entries, at, groups[at]) :: Reading(entries, at, groups[at])[at];
    forall at | at in groups ensures ReadsAt(entries, at, groups[at], c) {
      GroupOf(entries, groups, at);
      SingleReading(entries, at, groups[at]);
    }
    RemountReads(entries, groups, c);
  }

  lemma SingleReading(entries: Entries, at: nat, slots: nat)
    requires Group(entries, at, slots)
    ensures Reading(entries, at, slots) == if ReadsSome(entries, at, slots)
      then map[at := Reading(entries, at, slots)[at]] else map[]
  {
    GroupRun(entries, at, slots, map[]);
  }
}
