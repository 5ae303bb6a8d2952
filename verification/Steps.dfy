/** The steps operations are made of, on the whole volume: what each makes of the tree, and that every
    moment on the way is safe. */
module Steps {
  import opened Bytes
  import opened Geometry
  import opened Chains
  import opened FatCache
  import opened ClusterData
  import opened Evolution
  import opened Allocation
  import opened Growth
  import opened FileBytes
  import opened LongNames
  import opened Layout
  import opened Edits
  import opened DirectoryIo
  import opened Directory
  import opened Entering
  import opened Ownership
  import opened World
  import opened CrashSafety
  import opened Keeping

  // Predicates quantified over one of these stay folded in a proof until it mentions that token.
  ghost predicate Stood(n: int) { true }
  ghost predicate Retold(n: int) { true }

  /** The invariant between steps: tree, chains, entries and table agree, every cluster is accounted for,
      and the table on the device lags harmlessly. Entries in `skip` are listed but own nothing. */
  ghost predicate Stands(g: Geometry, s: State, skip: set<Ref>, lost: set<nat>, a: Snap) {
    && Sound(g, a) && Settled(g, s, skip, a.table, a.image) && Accounts(a.table, s.chains, lost)
    && SafeAt(g, s, skip, Moment(a.image, a.disk))
  }

  /** Every moment logged between `before` and `after` is safe for the state. */
  ghost predicate SafeRun(g: Geometry, s: State, skip: set<Ref>, before: seq<Moment>, after: seq<Moment>) {
    before <= after && forall n: int :: Stood(n) ==> forall i :: |before| <= i < |after| ==>
      SafeAt(g, s, skip, after[i])
  }

  /** Every moment logged between `before` and `after` is crash safe. */
  ghost predicate SafeLog(g: Geometry, dirs: set<nat>, skip: set<Ref>, before: seq<Moment>, after: seq<Moment>) {
    before <= after && forall n: int :: Retold(n) ==> forall i :: |before| <= i < |after| ==>
      CrashSafe(g, dirs, skip, after[i])
  }

  lemma SafeLogOf(g: Geometry, s: State, skip: set<Ref>, before: seq<Moment>, after: seq<Moment>, dirs: set<nat>,
      skip': set<Ref>)
    requires SafeRun(g, s, skip, before, after) && dirs <= s.tree.Keys && skip <= skip'
    ensures SafeLog(g, dirs, skip', before, after)
  {
    assert Stood(0);
    forall i | |before| <= i < |after| ensures CrashSafe(g, dirs, skip', after[i]) {
      SafeIsCrashSafe(g, s, skip, after[i], dirs, skip');
    }
  }

  lemma SafeLogTrans(g: Geometry, dirs: set<nat>, skip: set<Ref>, a: seq<Moment>, b: seq<Moment>, c: seq<Moment>)
    requires SafeLog(g, dirs, skip, a, b) && SafeLog(g, dirs, skip, b, c)
    ensures SafeLog(g, dirs, skip, a, c)
  {
    assert Retold(0);
    forall i | |a| <= i < |c| ensures CrashSafe(g, dirs, skip, c[i]) {
      if i < |b| {
        assert c[i] == b[i];
      }
    }
  }

  ghost predicate Trimmed(n: int) { true }

  /** Every moment logged between `before` and `after` but the last is safe; folded behind `Trimmed`. */
  ghost predicate SafeButLast(g: Geometry, s: State, before: seq<Moment>, after: seq<Moment>) {
    after != [] && forall n: int :: Trimmed(n) ==> SafeRun(g, s, {}, before, after[..|after| - 1])
  }

  /** The last moment decides. */
  lemma SafeLogLast(g: Geometry, s: State, before: seq<Moment>, after: seq<Moment>, dirs: set<nat>)
    requires |before| < |after| && SafeButLast(g, s, before, after) && dirs <= s.tree.Keys
    ensures SafeLog(g, dirs, {}, before, after) <==> CrashSafe(g, dirs, {}, after[|after| - 1])
  {
    assert Trimmed(0);
    SafeLogOf(g, s, {}, before, after[..|after| - 1], dirs, {});
    assert Retold(0);
    forall i | |before| <= i < |after| - 1 ensures CrashSafe(g, dirs, {}, after[i]) {
      assert after[i] == after[..|after| - 1][i];
    }
  }

  /** One unsafe moment is enough. */
  lemma UnsafeAt(g: Geometry, dirs: set<nat>, before: seq<Moment>, after: seq<Moment>, i: nat)
    requires |before| <= i < |after|
    ensures !CrashSafe(g, dirs, {}, after[i]) ==> !SafeLog(g, dirs, {}, before, after)
  {
    assert Retold(0);
  }

  lemma SafeLogAfter(g: Geometry, dirs: set<nat>, a: seq<Moment>, b: seq<Moment>, c: seq<Moment>)
    requires SafeLog(g, dirs, {}, a, b) && b <= c
    ensures SafeLog(g, dirs, {}, a, c) <==> SafeLog(g, dirs, {}, b, c)
  {
    if SafeLog(g, dirs, {}, b, c) {
      SafeLogTrans(g, dirs, {}, a, b, c);
    }
    assert Retold(0);
  }

  lemma SafeLogEmpty(g: Geometry, dirs: set<nat>, skip: set<Ref>, a: seq<Moment>)
    ensures SafeLog(g, dirs, skip, a, a)
  {
  }

  /** If every moment of the way was mild, every one was safe, the last included. */
  lemma MildRun(g: Geometry, s: State, skip: set<Ref>, lost: set<nat>, a: Snap, b: Snap, skip': set<Ref>)
    requires Stands(g, s, skip, lost, a) && Sound(g, b) && a.log <= b.log && skip <= skip'
    requires forall i :: |a.log| <= i < |b.log| ==> Mild(g, s, skip', a, b.log[i])
    ensures SafeRun(g, s, skip', a.log, b.log) && SafeAt(g, s, skip', Moment(b.image, b.disk))
  {
    SafeMore(g, s, skip, Moment(a.image, a.disk), skip');
    forall i | |a.log| <= i < |b.log| ensures SafeAt(g, s, skip', b.log[i]) {
      MildSafe(g, s, skip, a, b.log[i], skip');
    }
    assert |a.log| == |b.log| ==> b.log == a.log;
  }

  lemma SafeMore(g: Geometry, s: State, skip: set<Ref>, m: Moment, skip': set<Ref>)
    requires SafeAt(g, s, skip, m) && skip <= skip'
    ensures SafeAt(g, s, skip', m)
  {
    assert Pictured(0);
    var w :| Lags(s, skip, w) && SafeBy(g, skip, m, w);
    FewerAsked(g, skip, skip', m, w);
    assert Lags(s, skip', w) by {
      assert Trailed(0);
    }
  }

  /** Safety asks of the state only which directories there are, how their chains begin and what the files
      own. */
  lemma SafeRestated(g: Geometry, s: State, s': State, skip: set<Ref>, m: Moment)
    requires SafeAt(g, s, skip, m) && s'.tree.Keys == s.tree.Keys
    requires forall d :: d in s.tree && OfDir(d) in s.chains ==>
      OfDir(d) in s'.chains && s.chains[OfDir(d)] <= s'.chains[OfDir(d)]
    requires forall r :: Has(s', r) && r !in skip ==>
      Has(s, r) && Rec(s', r).isDir == Rec(s, r).isDir && Rec(s', r).cluster == Rec(s, r).cluster
    ensures SafeAt(g, s', skip, m)
  {
    assert Pictured(0);
    var w :| Lags(s, skip, w) && SafeBy(g, skip, m, w);
    assert Lags(s', skip, w) by {
      assert Trailed(0);
      forall r | Has(s', r) && r !in skip ensures Reaches(w, r, Rec(s', r)) {
        assert Reaches(w, r, Rec(s, r));
      }
    }
  }

  // ---------------------------------------------------------------- work on a file or on the spare chain

  ghost predicate OfNoDir(a: Snap, s: State, x: Owner) {
    x in s.chains && !x.OfDir? && a.chain == s.chains[x] && (x.Spare? || a.live || a.chain == [])
  }

  lemma MutesRefl(e: Entries, loud: set<nat>)
    ensures Mutes(e, e, loud)
  {
  }

  /** Work on a chain that is no directory's shows nothing new. */
  lemma FileMild(g: Geometry, s: State, skip: set<Ref>, a: Snap, x: Owner, m: Moment)
    requires Sound(g, a) && Settled(g, s, skip, a.table, a.image) && OfNoDir(a, s, x) && Keeps(g, a, m)
    ensures Mild(g, s, skip, a, m)
  {
    OthersKept(g, a, m.image, a.table, a.chain, s.chains, x);
    forall d | d in s.tree ensures Mutes(DirEntries(g, a.image, s.chains, d), DirEntries(g, m.image, s.chains, d),
      Loud(skip, d)) {
      DirOf(g, s, skip, d);
      DirSame(g, a.image, m.image, s.chains, s.chains, d);
      MutesRefl(DirEntries(g, a.image, s.chains, d), Loud(skip, d));
    }
    if m.table != a.disk {
      var ch :| Within(a.table, a.chain, m.table, ch)
        && (a.live && a.chain != [] ==> IsChain(m.table, ch) && SameHead(a.chain, ch));
      if a.live && a.chain != [] {
        ForestStep(a.table, s.chains, x, m.table, ch);
        assert Rehung(s.chains, s.chains[x := ch]);
      } else {
        ForestWithout(a.table, s.chains, x, m.table, ch);
        assert Rehung(s.chains, s.chains[x := []]);
      }
    }
  }

  lemma FileRun(g: Geometry, s: State, skip: set<Ref>, lost: set<nat>, a: Snap, b: Snap, x: Owner)
    requires Stands(g, s, skip, lost, a) && Evolves(g, a, b) && OfNoDir(a, s, x)
    ensures SafeRun(g, s, skip, a.log, b.log) && SafeAt(g, s, skip, Moment(b.image, b.disk))
  {
    assert EvolvesBody(g, a, b) by {
      assert Replayed(0);
    }
    forall i | |a.log| <= i < |b.log| ensures Mild(g, s, skip, a, b.log[i]) {
      FileMild(g, s, skip, a, x, b.log[i]);
    }
    MildRun(g, s, skip, lost, a, b, skip);
  }

  lemma FileAlike(g: Geometry, s: State, skip: set<Ref>, lost: set<nat>, a: Snap, b: Snap, x: Owner, more: Chained)
    requires Stands(g, s, skip, lost, a) && Evolves(g, a, b) && OfNoDir(a, s, x)
    requires forall d :: OfDir(d) in s.chains ==> OfDir(d) in more && more[OfDir(d)] == s.chains[OfDir(d)]
    ensures DirsAlike(g, a.image, b.image, s, more, {})
  {
    EvolvedKept(g, a, b, s.chains, x);
    forall d | d in s.tree ensures OfDir(d) in s.chains {
      DirOf(g, s, skip, d);
    }
  }

  ghost predicate Counts(a: Snap, b: Snap) {
    FreeCount(b.table) + |b.chain| == FreeCount(a.table) + |a.chain|
  }

  /** Work that leaves the file's chain as it was. */
  lemma FileRead(g: Geometry, s: State, skip: set<Ref>, lost: set<nat>, a: Snap, b: Snap, x: Owner)
    requires Stands(g, s, skip, lost, a) && Evolves(g, a, b) && OfNoDir(a, s, x)
    requires b.chain == a.chain && Owns(b.table, b.chain) && Counts(a, b)
    ensures Stands(g, s, skip, lost, b) && SafeRun(g, s, skip, a.log, b.log)
    ensures Carried(g, a.image, s, b.image, s, {}, FileOf(x))
  {
    FileRun(g, s, skip, lost, a, b, x);
    EvolvedKept(g, a, b, s.chains, x);
    ForestStep(a.table, s.chains, x, b.table, b.chain);
    AccountsStep(a.table, s.chains, lost, x, b.table, b.chain);
    assert s.chains[x := b.chain] == s.chains;
    FileAlike(g, s, skip, lost, a, b, x, s.chains);
    EnteredFrame(g, a.image, b.image, s, skip, s.chains, skip);
    CarriedAlike(g, a.image, s, b.image, s.chains, FileOf(x));
  }

  ghost function FileOf(x: Owner): set<Ref> {
    if x.OfFile? then {x.ref} else {}
  }

  ghost function Spared(s: State, ch: seq<nat>): State {
    s.(chains := s.chains[Spare := ch])
  }

  /** Work on the spare chain. */
  lemma SpareStep(g: Geometry, s: State, skip: set<Ref>, lost: set<nat>, a: Snap, b: Snap)
    requires Stands(g, s, skip, lost, a) && Evolves(g, a, b) && OfNoDir(a, s, Spare) && Owns(b.table, b.chain)
    requires Counts(a, b)
    ensures Stands(g, Spared(s, b.chain), skip, lost, b) && SafeRun(g, s, skip, a.log, b.log)
    ensures Carried(g, a.image, s, b.image, Spared(s, b.chain), {}, {})
    ensures DirsAlike(g, a.image, b.image, s, Spared(s, b.chain).chains, {})
  {
    var s' := Spared(s, b.chain);
    FileRun(g, s, skip, lost, a, b, Spare);
    EvolvedKept(g, a, b, s.chains, Spare);
    ForestStep(a.table, s.chains, Spare, b.table, b.chain);
    AccountsStep(a.table, s.chains, lost, Spare, b.table, b.chain);
    FileAlike(g, s, skip, lost, a, b, Spare, s'.chains);
    EnteredFrame(g, a.image, b.image, s, skip, s'.chains, skip);
    ShapeSpared(g, s, skip, b.chain);
    SafeRestated(g, s, s', skip, Moment(b.image, b.disk));
    CarriedAlike(g, a.image, s, b.image, s'.chains, {});
  }

  lemma ShapeSpared(g: Geometry, s: State, skip: set<Ref>, ch: seq<nat>)
    requires Shape(g, s, skip)
    ensures Shape(g, Spared(s, ch), skip)
  {
    assert Shaped(0);
    var s' := Spared(s, ch);
    forall r | Has(s', r) && r !in skip ensures NodeOk(g, s', r) {
      assert Has(s, r) && Rec(s', r) == Rec(s, r);
    }
    ShapeRest(g, s, s', skip, skip);
  }

  /** The file at `r`, its clusters now `ch`, waits for its entry to be told. */
  ghost function Waiting(s: State, r: Ref, ch: seq<nat>): State {
    s.(chains := (s.chains - {OfFile(r)})[Spare := ch])
  }

  /** Work on a file whose entry is to be rewritten: every moment up to then is safe. */
  lemma FileStep(g: Geometry, s: State, skip: set<Ref>, lost: set<nat>, a: Snap, b: Snap, r: Ref)
    requires Stands(g, s, skip, lost, a) && Evolves(g, a, b) && OfNoDir(a, s, OfFile(r)) && Owns(b.table, b.chain)
    requires Counts(a, b)
    requires Has(s, r) && r !in skip && !Rec(s, r).isDir && Spare in s.chains && s.chains[Spare] == []
    ensures Stands(g, Waiting(s, r, b.chain), skip + {r}, lost, b) && SafeRun(g, s, skip, a.log, b.log)
    ensures Carried(g, a.image, s, b.image, Waiting(s, r, b.chain), {}, {r})
    ensures DirsAlike(g, a.image, b.image, s, Waiting(s, r, b.chain).chains, {})
  {
    var x := OfFile(r);
    var s', mid := Waiting(s, r, b.chain), s.chains[x := b.chain];
    FileRun(g, s, skip, lost, a, b, x);
    EvolvedKept(g, a, b, s.chains, x);
    ForestStep(a.table, s.chains, x, b.table, b.chain);
    AccountsStep(a.table, s.chains, lost, x, b.table, b.chain);
    Rekeyed(b.table, mid, lost, x, Spare);
    assert Rekey(mid, x, Spare) == s'.chains;
    FileAlike(g, s, skip, lost, a, b, x, s'.chains);
    EnteredFrame(g, a.image, b.image, s, skip, s'.chains, skip + {r});
    ShapeReleased(g, s, skip, r);
    ShapeSpared(g, Released(s, r), skip + {r}, b.chain);
    assert Spared(Released(s, r), b.chain) == s';
    SafeMore(g, s, skip, Moment(b.image, b.disk), skip + {r});
    SafeRestated(g, s, s', skip + {r}, Moment(b.image, b.disk));
    CarriedAlike(g, a.image, s, b.image, s'.chains, {r});
  }

  // ---------------------------------------------------------------- work on a directory

  ghost predicate OfDirAt(a: Snap, s: State, d: nat) {
    d in s.tree && OfDir(d) in s.chains && a.chain == s.chains[OfDir(d)] && a.live
  }

  lemma DirMild(g: Geometry, s: State, skip: set<Ref>, a: Snap, b: Snap, d: nat, loud: set<nat>, skip': set<Ref>,
      i: nat)
    requires Sound(g, a) && Settled(g, s, skip, a.table, a.image) && OfDirAt(a, s, d) && Quiet(g, a, b, loud)
    requires skip <= skip' && loud <= Loud(skip', d) && |a.log| <= i < |b.log|
    ensures Mild(g, s, skip', a, b.log[i])
  {
    var m := b.log[i];
    assert EvolvesBody(g, a, b) && Keeps(g, a, m) by {
      assert Replayed(0);
    }
    assert MutedOn(g, a.chain, a.image, m.image, loud) by {
      assert Watched(0);
    }
    OthersKept(g, a, m.image, a.table, a.chain, s.chains, OfDir(d));
    forall x | x in s.tree ensures Mutes(DirEntries(g, a.image, s.chains, x), DirEntries(g, m.image, s.chains, x),
      Loud(skip', x)) {
      DirOf(g, s, skip, x);
      if x != d {
        DirSame(g, a.image, m.image, s.chains, s.chains, x);
        MutesRefl(DirEntries(g, a.image, s.chains, x), Loud(skip', x));
      }
    }
    if m.table != a.disk {
      DirOf(g, s, skip, d);
      DirTable(g, s, a, b, d, i);
      RehungRefl(s.chains);
    }
  }

  lemma DirTable(g: Geometry, s: State, a: Snap, b: Snap, d: nat, i: nat)
    requires Sound(g, a) && Forest(a.table, s.chains) && OfDirAt(a, s, d) && a.chain != []
    requires |a.log| <= i < |b.log| && Keeps(g, a, b.log[i]) && Trunk(a.chain, a, b) && b.log[i].table != a.disk
    ensures |b.log[i].table| == g.Limit() && Forest(b.log[i].table, s.chains)
  {
    assert Rooted(0);
    var t := b.log[i].table;
    var ch :| Within(a.table, a.chain, t, ch) && (a.live && a.chain != [] ==> IsChain(t, ch) && SameHead(a.chain, ch));
    ChainUnique(t, ch, a.chain);
    ForestStep(a.table, s.chains, OfDir(d), t, a.chain);
    assert s.chains[OfDir(d) := a.chain] == s.chains;
  }

  lemma DirRun(g: Geometry, s: State, skip: set<Ref>, lost: set<nat>, a: Snap, b: Snap, d: nat, loud: set<nat>,
      skip': set<Ref>)
    requires Stands(g, s, skip, lost, a) && OfDirAt(a, s, d) && Quiet(g, a, b, loud) && skip <= skip'
    requires loud <= Loud(skip', d)
    ensures SafeRun(g, s, skip', a.log, b.log) && SafeAt(g, s, skip', Moment(b.image, b.disk))
  {
    assert a.log <= b.log by {
      assert Replayed(0);
    }
    forall i | |a.log| <= i < |b.log| ensures Mild(g, s, skip', a, b.log[i]) {
      DirMild(g, s, skip, a, b, d, loud, skip', i);
    }
    MildRun(g, s, skip, lost, a, b, skip');
  }

  /** The chains after work on directory `d`, which may have grown. */
  lemma DirChains(g: Geometry, s: State, skip: set<Ref>, lost: set<nat>, a: Snap, b: Snap, d: nat)
    requires Stands(g, s, skip, lost, a) && OfDirAt(a, s, d) && Evolves(g, a, b) && Owns(b.table, b.chain)
    requires Counts(a, b)
    ensures var more := s.chains[OfDir(d) := b.chain];
      Forest(b.table, more) && Accounts(b.table, more, lost) && DirsAlike(g, a.image, b.image, s, more, {d})
    ensures InVolume(g, b.chain) && forall r :: OfFile(r) in s.chains ==>
      OwnSame(g, a.image, b.image, s.chains[OfFile(r)])
  {
    EvolvedKept(g, a, b, s.chains, OfDir(d));
    ForestStep(a.table, s.chains, OfDir(d), b.table, b.chain);
    AccountsStep(a.table, s.chains, lost, OfDir(d), b.table, b.chain);
    forall x | x in s.tree ensures OfDir(x) in s.chains {
      DirOf(g, s, skip, x);
    }
    ChainInVolume(g, b.table, b.chain);
  }

  ghost function Grew(s: State, d: nat, ch: seq<nat>): State {
    s.(chains := s.chains[OfDir(d) := ch])
  }

  lemma StaysTold(e: Entries, f: Entries, c: Index, at: nat)
    requires Stays(e, f, c) && at in c && TellsAt(e, at, c[at])
    ensures TellsAt(f, at, c[at])
  {
    StaysAt(e, f, c, at);
  }

  /** Nodes that stay are told as before. */
  lemma StayTold(g: Geometry, im: Image, s: State, skip: set<Ref>, d: nat, f: Entries, kept: Index)
    requires Entered(g, im, s, skip) && d in s.tree && Stays(DirEntries(g, im, s.chains, d), f, kept)
    requires forall at :: at in kept ==> at in s.tree[d] && s.tree[d][at] == kept[at]
    ensures forall at :: at in kept && Ref(d, at) !in skip ==> TellsAt(f, at, kept[at])
  {
    forall at | at in kept && Ref(d, at) !in skip ensures TellsAt(f, at, kept[at]) {
      assert Has(s, Ref(d, at));
      EntryTells(g, im, s, skip, Ref(d, at));
      StaysTold(DirEntries(g, im, s.chains, d), f, kept, at);
    }
  }

  /** Reading a directory, growing it, or rewriting entries that are no node's. */
  lemma DirStep(g: Geometry, s: State, skip: set<Ref>, lost: set<nat>, a: Snap, b: Snap, d: nat, f: Entries)
    requires Stands(g, s, skip, lost, a) && OfDirAt(a, s, d) && Quiet(g, a, b, {}) && Owns(b.table, b.chain)
    requires Counts(a, b)
    requires a.chain <= b.chain && InVolume(g, b.chain) && f == EntriesOf(g, b.image, b.chain) && WellKept(f, s.tree[d])
    requires Stays(DirEntries(g, a.image, s.chains, d), f, s.tree[d])
    requires ShortUnique(DirEntries(g, a.image, s.chains, d)) ==> ShortUnique(f)
    ensures Stands(g, Grew(s, d, b.chain), skip, lost, b) && SafeRun(g, s, skip, a.log, b.log)
    ensures Carried(g, a.image, s, b.image, Grew(s, d, b.chain), {}, {})
  {
    var s' := Grew(s, d, b.chain);
    DirRun(g, s, skip, lost, a, b, d, {}, skip);
    DirChains(g, s, skip, lost, a, b, d);
    DirOf(g, s, skip, d);
    ShapeGrown(g, s, skip, OfDir(d), b.chain);
    StayTold(g, a.image, s, skip, d, f, s.tree[d]);
    assert DirEntries(g, b.image, s'.chains, d) == f;
    EnteredDir(g, a.image, b.image, s, skip, d, s.tree[d], s'.chains, skip);
    assert s.tree[d := s.tree[d]] == s.tree;
    SafeRestated(g, s, s', skip, Moment(b.image, b.disk));
    CarriedDir(g, a.image, s, b.image, d, s.tree[d], s'.chains, s.tree[d], {});
  }

  /** Writing the entries of a node that owns nothing yet, or rewriting its short entry. */
  lemma DirStored(g: Geometry, s: State, skip: set<Ref>, lost: set<nat>, a: Snap, b: Snap, r: Ref, rec: Record,
      h: Entries, loud: set<nat>, skip': set<Ref>)
    requires Stands(g, s, skip, lost, a) && OfDirAt(a, s, r.dir) && Quiet(g, a, b, loud) && b.table == a.table
    requires b.chain == a.chain
    requires h == EntriesOf(g, b.image, a.chain) && (!Has(s, r) || r in skip)
    requires WellKept(h, s.tree[r.dir][r.at := rec])
    requires Stays(DirEntries(g, a.image, s.chains, r.dir), h, s.tree[r.dir] - {r.at})
    requires ShortUnique(DirEntries(g, a.image, s.chains, r.dir)) ==> ShortUnique(h)
    requires skip <= skip' && loud <= Loud(skip', r.dir) && skip' <= skip + {r}
    ensures Stands(g, Noted(s, r, rec), skip + {r}, lost, b) && SafeRun(g, s, skip', a.log, b.log)
    ensures Carried(g, a.image, s, b.image, Noted(s, r, rec), {r}, {})
  {
    var s', d := Noted(s, r, rec), r.dir;
    DirRun(g, s, skip, lost, a, b, d, loud, skip');
    ForestOwns(a.table, s.chains, OfDir(d));
    DirChains(g, s, skip, lost, a, b, d);
    assert s.chains[OfDir(d) := b.chain] == s.chains;
    ShapeNoted(g, s, skip, r, rec);
    var c: Index := s.tree[d][r.at := rec];
    StayTold(g, a.image, s, skip, d, h, s.tree[d] - {r.at});
    assert DirEntries(g, b.image, s.chains, d) == h;
    EnteredDir(g, a.image, b.image, s, skip, d, c, s.chains, skip + {r});
    SafeMore(g, s, skip', Moment(b.image, b.disk), skip + {r});
    SafeRestated(g, s, s', skip + {r}, Moment(b.image, b.disk));
    CarriedDir(g, a.image, s, b.image, d, c, s.chains, s.tree[d] - {r.at}, {r});
  }

  /** Freeing the entries of a node that owns nothing any more. */
  lemma DirErased(g: Geometry, s: State, skip: set<Ref>, lost: set<nat>, a: Snap, b: Snap, r: Ref, h: Entries)
    requires Stands(g, s, skip, lost, a) && OfDirAt(a, s, r.dir) && Quiet(g, a, b, {}) && b.table == a.table
    requires b.chain == a.chain
    requires h == EntriesOf(g, b.image, a.chain) && Has(s, r) && r in skip && r.at < |h| && !Pointing(h[r.at])
    requires WellKept(h, s.tree[r.dir] - {r.at})
    requires Stays(DirEntries(g, a.image, s.chains, r.dir), h, s.tree[r.dir] - {r.at})
    requires ShortUnique(DirEntries(g, a.image, s.chains, r.dir)) ==> ShortUnique(h)
    ensures Stands(g, Dropped(s, r), skip - {r}, lost, b) && SafeRun(g, s, skip, a.log, b.log)
    ensures Carried(g, a.image, s, b.image, Dropped(s, r), {r}, {})
  {
    var s', d := Dropped(s, r), r.dir;
    DirRun(g, s, skip, lost, a, b, d, {}, skip);
    ForestOwns(a.table, s.chains, OfDir(d));
    DirChains(g, s, skip, lost, a, b, d);
    assert s.chains[OfDir(d) := b.chain] == s.chains;
    ShapeDropped(g, s, skip, r);
    var c: Index := s.tree[d] - {r.at};
    StayTold(g, a.image, s, skip, d, h, c);
    assert DirEntries(g, b.image, s.chains, d) == h;
    EnteredDir(g, a.image, b.image, s, skip, d, c, s.chains, skip - {r});
    SafeWithout(g, s, skip, b.table, Moment(b.image, b.disk), r);
    CarriedDir(g, a.image, s, b.image, d, c, s.chains, c, {r});
  }

  /** An entry that points nowhere need not be left out of account. */
  lemma SafeWithout(g: Geometry, s: State, skip: set<Ref>, t: Table, m: Moment, r: Ref)
    requires SafeAt(g, s, skip, m) && Has(s, r) && r in skip && g.Valid() && Fits(g, m.image)
    requires |t| == g.Limit() && Forest(t, s.chains) && !PointsAt(g, m.image, s.chains, r)
    ensures SafeAt(g, Dropped(s, r), skip - {r}, m)
  {
    assert Pictured(0);
    var w :| Lags(s, skip, w) && SafeBy(g, skip, m, w);
    var s' := Dropped(s, r);
    assert !PointsAt(g, m.image, w, r) by {
      if PointsAt(g, m.image, w, r) {
        ShownEntry(g, t, m.image, s, skip, w, r);
      }
    }
    MoreAsked(g, skip, r, m, w);
    assert Lags(s', skip - {r}, w) by {
      assert Trailed(0);
      forall q | Has(s', q) && q !in skip - {r} ensures Reaches(w, q, Rec(s', q)) {
        assert Has(s, q) && q != r && Rec(s', q) == Rec(s, q);
      }
    }
  }

  lemma MoreAsked(g: Geometry, skip: set<Ref>, r: Ref, m: Moment, w: Chained)
    requires SafeBy(g, skip, m, w) && !PointsAt(g, m.image, w, r)
    ensures SafeBy(g, skip - {r}, m, w)
  {
    SafeHeads(g, skip, m, w);
    forall q ensures Follows(g, skip, m.image, w, skip - {r}, m.image, w, q) {
      if PointsAt(g, m.image, w, q) && q !in skip - {r} {
        assert q != r;
        SafeLeads(g, skip, m, w, q);
      }
    }
    SafeTransfer(g, skip, m, w, skip - {r}, m, w);
  }

  // ---------------------------------------------------------------- steps of the tree alone

  lemma AlikeChains(g: Geometry, im: Image, s: State, skip: set<Ref>, more: Chained)
    requires g.Valid() && Fits(g, im) && Shape(g, s, skip)
    requires forall d :: OfDir(d) in s.chains ==> OfDir(d) in more && more[OfDir(d)] == s.chains[OfDir(d)]
    ensures DirsAlike(g, im, im, s, more, {})
  {
    forall d | d in s.tree ensures OfDir(d) in s.chains {
      DirOf(g, s, skip, d);
    }
  }

  /** The node at `r` gives up what it owns; from now on its entry is left out of account. */
  lemma Release(g: Geometry, s: State, skip: set<Ref>, lost: set<nat>, a: Snap, r: Ref)
    requires Stands(g, s, skip, lost, a) && Has(s, r) && r !in skip && Spare in s.chains && s.chains[Spare] == []
    ensures Rec(s, r).isDir || OfFile(r) in s.chains
    ensures Stands(g, Released(s, r), skip + {r}, lost, a) && Carried(g, a.image, s, a.image, Released(s, r), {}, {r})
  {
    ShapeReleased(g, s, skip, r);
    var s' := Released(s, r);
    if !Rec(s, r).isDir {
      Rekeyed(a.table, s.chains, lost, OfFile(r), Spare);
    }
    AlikeChains(g, a.image, s, skip, s'.chains);
    EnteredFrame(g, a.image, a.image, s, skip, s'.chains, skip + {r});
    SafeMore(g, s, skip, Moment(a.image, a.disk), skip + {r});
    SafeRestated(g, s, s', skip + {r}, Moment(a.image, a.disk));
    FilesSame(g, a.image, s, s'.chains, {r});
    CarriedAlike(g, a.image, s, a.image, s'.chains, {r});
  }

  lemma FilesSame(g: Geometry, im: Image, s: State, more: Chained, moved: set<Ref>)
    requires g.Valid() && Fits(g, im)
    requires forall r :: OfFile(r) in s.chains && r !in moved ==>
      OfFile(r) in more && more[OfFile(r)] == s.chains[OfFile(r)]
    ensures forall r :: r !in moved ==> SameFile(g, im, s.chains, im, more, r)
  {
  }

  lemma EnteredMore(g: Geometry, im: Image, s: State, skip: set<Ref>, r: Ref)
    requires Entered(g, im, s, skip) && Has(s, r) && Told(g, im, s.chains, r, Rec(s, r))
    ensures Entered(g, im, s, skip - {r})
  {
    assert Inscribed(0) && Recounted(0);
  }

  /** An entry without clusters points nowhere, whatever table the device shows. */
  lemma SafeEmpty(g: Geometry, s: State, skip: set<Ref>, t: Table, m: Moment, r: Ref)
    requires SafeAt(g, s, skip, m) && Has(s, r) && Rec(s, r).cluster < 2 && Told(g, m.image, s.chains, r, Rec(s, r))
    requires |t| == g.Limit() && Forest(t, s.chains) && Spare in s.chains && !Rec(s, r).isDir
    ensures SafeAt(g, Adopted(s, r), skip - {r}, m)
  {
    assert Pictured(0);
    var w :| Lags(s, skip, w) && SafeBy(g, skip, m, w);
    var s' := Adopted(s, r);
    assert !PointsAt(g, m.image, w, r) by {
      assert Recounted(0);
      if PointsAt(g, m.image, w, r) {
        ShownEntry(g, t, m.image, s, skip, w, r);
      }
    }
    MoreAsked(g, skip, r, m, w);
    assert Lags(s', skip - {r}, w) by {
      assert Trailed(0);
      forall q | Has(s', q) && q !in skip - {r} ensures Reaches(w, q, Rec(s', q)) {
        assert Has(s, q) && Rec(s', q) == Rec(s, q);
      }
    }
  }

  /** A file whose entry now says what it should takes the spare chain for its own. */
  lemma Adopt(g: Geometry, s: State, skip: set<Ref>, lost: set<nat>, a: Snap, r: Ref)
    requires Stands(g, s, skip, lost, a) && Spare in s.chains && Has(s, r) && r in skip && !Rec(s, r).isDir
    requires Storable(Rec(s, r))
    requires HeadOf(s.chains[Spare], Rec(s, r).cluster) && Rec(s, r).length <= Room(g, |s.chains[Spare]|)
    requires Told(g, a.image, s.chains, r, Rec(s, r)) && (a.disk == a.table || Rec(s, r).cluster < 2)
    ensures Stands(g, Adopted(s, r), skip - {r}, lost, a) && Carried(g, a.image, s, a.image, Adopted(s, r), {}, {r})
  {
    ShapeAdopted(g, s, skip, r);
    var s' := Adopted(s, r);
    Rekeyed(a.table, s.chains, lost, Spare, OfFile(r));
    EnteredMore(g, a.image, s, skip, r);
    AlikeChains(g, a.image, s, skip, s'.chains);
    EnteredFrame(g, a.image, a.image, s, skip - {r}, s'.chains, skip - {r});
    if Rec(s, r).cluster < 2 {
      SafeEmpty(g, s, skip, a.table, Moment(a.image, a.disk), r);
    } else {
      SettledSafe(g, s', skip - {r}, a.table, a.image);
    }
    FilesSame(g, a.image, s, s'.chains, {r});
    CarriedAlike(g, a.image, s, a.image, s'.chains, {r});
  }

  lemma EnteredFounded(g: Geometry, im: Image, s: State, skip: set<Ref>, v: nat, more: Chained)
    requires Entered(g, im, s, skip) && v !in s.tree && DirsAlike(g, im, im, s, more, {})
    requires WellKept(DirEntries(g, im, more, v), map[])
    ensures Entered(g, im, s.(tree := s.tree[v := map[]], chains := more), skip)
  {
    EnteredFrame(g, im, im, s, skip, more, skip);
    assert Inscribed(0);
    var s' := s.(tree := s.tree[v := map[]], chains := more);
    forall r | Has(s', r) ensures Has(s, r) && Rec(s', r) == Rec(s, r) && Has(s.(chains := more), r) {
    }
  }

  /** A new directory, its entry told and its table on the device, joins the tree. */
  lemma Found(g: Geometry, s: State, skip: set<Ref>, lost: set<nat>, a: Snap, r: Ref)
    requires Stands(g, s, skip, lost, a) && Spare in s.chains && Has(s, r) && r in skip && Rec(s, r).isDir
    requires Storable(Rec(s, r))
    requires Rec(s, r).cluster !in s.tree && Headed(s.chains[Spare], Rec(s, r).cluster)
    requires Told(g, a.image, s.chains, r, Rec(s, r)) && a.disk == a.table
    requires InVolume(g, s.chains[Spare]) && WellKept(EntriesOf(g, a.image, s.chains[Spare]), map[])
    requires ShortUnique(EntriesOf(g, a.image, s.chains[Spare]))
    ensures Stands(g, Founded(s, Rec(s, r).cluster), skip - {r}, lost, a)
    ensures Carried(g, a.image, s, a.image, Founded(s, Rec(s, r).cluster), {}, {})
  {
    ShapeFounded(g, s, skip, r);
    var s' := Founded(s, Rec(s, r).cluster);
    Rekeyed(a.table, s.chains, lost, Spare, OfDir(Rec(s, r).cluster));
    EnteredMore(g, a.image, s, skip, r);
    AlikeChains(g, a.image, s, skip, s'.chains);
    EnteredFounded(g, a.image, s, skip - {r}, Rec(s, r).cluster, s'.chains);
    SettledSafe(g, s', skip - {r}, a.table, a.image);
    FilesSame(g, a.image, s, s'.chains, {});
    CarriedFounded(g, a.image, s, Rec(s, r).cluster, s'.chains);
  }

  lemma CarriedFounded(g: Geometry, im: Image, s: State, v: nat, more: Chained)
    requires v !in s.tree && DirsAlike(g, im, im, s, more, {}) && ShortUnique(DirEntries(g, im, more, v))
    requires forall r :: SameFile(g, im, s.chains, im, more, r)
    ensures Carried(g, im, s, im, s.(tree := s.tree[v := map[]], chains := more), {}, {})
  {
    var mid, s' := s.(chains := more), s.(tree := s.tree[v := map[]], chains := more);
    CarriedAlike(g, im, s, im, more, {});
    UniqueCarried(g, im, s, im, mid, {}, {});
    assert UniqueShorts(g, im, mid) ==> UniqueShorts(g, im, s') by {
      assert Singled(0);
    }
    forall r ensures SameNode(g, im, s, im, s', r) {
      NodeCarried(g, im, s, im, mid, {}, {}, r);
      FoundedNode(g, im, mid, v, r);
    }
  }

  lemma FoundedNode(g: Geometry, im: Image, s: State, v: nat, r: Ref)
    requires g.Valid() && Fits(g, im) && v !in s.tree
    ensures Has(s.(tree := s.tree[v := map[]]), r) <==> Has(s, r)
    ensures Has(s, r) ==> Rec(s.(tree := s.tree[v := map[]]), r) == Rec(s, r)
    ensures Has(s, r) ==> (ReadsBack(g, im, s.(tree := s.tree[v := map[]]), r) <==> ReadsBack(g, im, s, r))
  {
  }

  /** An empty directory that no entry points at leaves the tree. */
  lemma Disband(g: Geometry, s: State, skip: set<Ref>, lost: set<nat>, a: Snap, v: nat)
    requires Stands(g, s, skip, lost, a) && Spare in s.chains && s.chains[Spare] == [] && v in s.tree
    requires s.tree[v] == map[] && v != s.root
    requires forall q :: IsSub(s, skip, q) ==> Rec(s, q).cluster != v
    ensures OfDir(v) in s.chains && Stands(g, Disbanded(s, v), skip, lost, a)
    ensures Carried(g, a.image, s, a.image, Disbanded(s, v), {}, {})
  {
    ShapeDisbanded(g, s, skip, v);
    var s' := Disbanded(s, v);
    Rekeyed(a.table, s.chains, lost, OfDir(v), Spare);
    EnteredDisbanded(g, a.image, s, skip, v);
    SafeDisbanded(g, s, skip, a.table, a.image, a.disk, v);
    CarriedDisbanded(g, a.image, s, skip, v);
  }

  lemma CarriedDisbanded(g: Geometry, im: Image, s: State, skip: set<Ref>, v: nat)
    requires g.Valid() && Fits(g, im) && Shape(g, s, skip) && v in s.tree && s.tree[v] == map[] && OfDir(v) in s.chains
    ensures Carried(g, im, s, im, Disbanded(s, v), {}, {})
  {
    var s' := Disbanded(s, v);
    forall d | d in s'.tree ensures d in s.tree && DirEntries(g, im, s'.chains, d) == DirEntries(g, im, s.chains, d) {
      DirOf(g, s, skip, d);
    }
    assert UniqueShorts(g, im, s) ==> UniqueShorts(g, im, s') by {
      assert Singled(0);
    }
    forall r ensures SameNode(g, im, s, im, s', r) && SameFile(g, im, s.chains, im, s'.chains, r) {
      assert Has(s', r) <==> Has(s, r);
    }
  }

  lemma EnteredDisbanded(g: Geometry, im: Image, s: State, skip: set<Ref>, v: nat)
    requires Entered(g, im, s, skip) && Shape(g, s, skip) && v in s.tree && s.tree[v] == map[] && OfDir(v) in s.chains
    ensures Entered(g, im, Disbanded(s, v), skip)
  {
    assert Inscribed(0);
    var s' := Disbanded(s, v);
    forall d | d in s'.tree ensures d in s.tree && DirEntries(g, im, s'.chains, d) == DirEntries(g, im, s.chains, d) {
      DirOf(g, s, skip, d);
    }
    forall r | Has(s', r) ensures Has(s, r) && Rec(s', r) == Rec(s, r) {
    }
  }

  lemma SafeDisbanded(g: Geometry, s: State, skip: set<Ref>, t: Table, im: Image, disk: Table, v: nat)
    requires Settled(g, s, skip, t, im) && SafeAt(g, s, skip, Moment(im, disk)) && v in s.tree && s.tree[v] == map[]
    requires OfDir(v) in s.chains
    requires forall q :: IsSub(s, skip, q) ==> Rec(s, q).cluster != v
    ensures SafeAt(g, Disbanded(s, v), skip, Moment(im, disk))
  {
    assert Pictured(0);
    var m := Moment(im, disk);
    var w :| Lags(s, skip, w) && SafeBy(g, skip, m, w);
    var w' := w - {OfDir(v)};
    forall r | PointsAt(g, im, w, r) && r !in skip ensures IsDirEntry(Target(g, im, w, r)) ==>
      ClusterOf(Target(g, im, w, r)) != v {
      PointsAtNode(g, s, skip, t, im, w, r, skip);
      assert Rec(s, r).isDir ==> IsSub(s, skip, r);
    }
    ByDisbanded(g, skip, m, w, v);
    LagsDisbanded(s, skip, w, v);
    assert Lags(Disbanded(s, v), skip, w') && SafeBy(g, skip, m, w');
  }

  lemma ByDisbanded(g: Geometry, skip: set<Ref>, m: Moment, w: Chained, v: nat)
    requires SafeBy(g, skip, m, w)
    requires forall r :: PointsAt(g, m.image, w, r) && r !in skip ==>
      (IsDirEntry(Target(g, m.image, w, r)) ==> ClusterOf(Target(g, m.image, w, r)) != v)
    ensures SafeBy(g, skip, m, w - {OfDir(v)})
  {
    var w' := w - {OfDir(v)};
    assert Forest(m.table, w') by {
      assert Planted(0);
    }
    SafeHeads(g, skip, m, w);
    forall r ensures Follows(g, skip, m.image, w, skip, m.image, w', r) {
      if PointsAt(g, m.image, w', r) && r !in skip {
        assert OfDir(r.dir) in w';
        SafeLeads(g, skip, m, w, r);
      }
    }
    SafeTransfer(g, skip, m, w, skip, m, w');
  }

  lemma LagsDisbanded(s: State, skip: set<Ref>, w: Chained, v: nat)
    requires Lags(s, skip, w) && OfDir(v) in s.chains
    ensures Lags(Disbanded(s, v), skip, w - {OfDir(v)})
  {
    assert Trailed(0);
    var s' := Disbanded(s, v);
    forall r | Has(s', r) && r !in skip ensures Reaches(w - {OfDir(v)}, r, Rec(s', r)) {
      assert Has(s, r) && Rec(s', r) == Rec(s, r) && Reaches(w, r, Rec(s, r));
    }
  }

  /** The entry at `q` says the same as the one at `r`: from now on it is the node's and `r` is left out of
      account. */
  lemma Hand(g: Geometry, s: State, skip: set<Ref>, lost: set<nat>, a: Snap, r: Ref, q: Ref)
    requires Stands(g, s, skip, lost, a) && Has(s, r) && r !in skip && Has(s, q) && q in skip && q != r
    requires Rec(s, q) == Rec(s, r).(name := Rec(s, q).name, slots := Rec(s, q).slots)
    requires Told(g, a.image, s.chains, q, Rec(s, q))
    ensures (Rec(s, r).isDir || OfFile(r) in s.chains) && Stands(g, Handed(s, r, q), skip - {q} + {r}, lost, a)
    ensures Carried(g, a.image, s, a.image, Handed(s, r, q), {}, {r, q})
  {
    ShapeHanded(g, s, skip, r, q);
    var s' := Handed(s, r, q);
    if !Rec(s, r).isDir {
      Rekeyed(a.table, s.chains, lost, OfFile(r), OfFile(q));
    }
    EnteredMore(g, a.image, s, skip, q);
    AlikeChains(g, a.image, s, skip, s'.chains);
    EnteredFrame(g, a.image, a.image, s, skip - {q}, s'.chains, skip - {q} + {r});
    SafeHanded(g, s, skip, a.table, a.image, a.disk, r, q);
    FilesSame(g, a.image, s, s'.chains, {r, q});
    CarriedAlike(g, a.image, s, a.image, s'.chains, {r, q});
  }

  ghost function Rewired(w: Chained, r: Ref, q: Ref): Chained {
    if OfFile(r) in w then (w - {OfFile(r)})[OfFile(q) := w[OfFile(r)]] else w - {OfFile(q)}
  }

  lemma SafeHanded(g: Geometry, s: State, skip: set<Ref>, t: Table, im: Image, disk: Table, r: Ref, q: Ref)
    requires Settled(g, s, skip, t, im) && SafeAt(g, s, skip, Moment(im, disk)) && Has(s, r) && r !in skip && Has(s, q)
    requires q in skip && q != r
    requires Rec(s, q) == Rec(s, r).(name := Rec(s, q).name, slots := Rec(s, q).slots)
    requires Rec(s, r).isDir || OfFile(r) in s.chains
    requires Told(g, im, s.chains, q, Rec(s, q))
    ensures SafeAt(g, Handed(s, r, q), skip - {q} + {r}, Moment(im, disk))
  {
    assert Pictured(0);
    var m, skip' := Moment(im, disk), skip - {q} + {r};
    var w :| Lags(s, skip, w) && SafeBy(g, skip, m, w);
    var w' := Rewired(w, r, q);
    RewiredForest(disk, w, r, q);
    RewiredEntries(g, im, w, r, q);
    forall p | PointsAt(g, im, w, p) && p !in skip' ensures Leads(w', p, Target(g, im, w, p)) {
      RewiredLeads(g, s, skip, t, im, disk, w, r, q, p);
    }
    forall p, p' | PointsDir(g, skip', im, w', p) && PointsDir(g, skip', im, w', p')
      && ClusterOf(Target(g, im, w', p)) == ClusterOf(Target(g, im, w', p')) ensures p == p'
    {
      RewiredSub(g, s, skip, t, im, w, r, q, p);
      RewiredSub(g, s, skip, t, im, w, r, q, p');
      assert Shaped(0);
    }
    assert SafeBy(g, skip', m, w') by {
      assert Witnessed(0);
    }
    RewiredLags(s, skip, w, r, q);
  }

  lemma RewiredForest(t: Table, w: Chained, r: Ref, q: Ref)
    requires Forest(t, w)
    ensures Forest(t, Rewired(w, r, q))
  {
    assert Planted(0);
  }

  lemma RewiredEntries(g: Geometry, im: Image, w: Chained, r: Ref, q: Ref)
    requires g.Valid() && Fits(g, im)
    ensures forall d :: DirEntries(g, im, Rewired(w, r, q), d) == DirEntries(g, im, w, d)
    ensures forall d :: OfDir(d) in Rewired(w, r, q) <==> OfDir(d) in w
    ensures forall d :: OfDir(d) in w ==> Rewired(w, r, q)[OfDir(d)] == w[OfDir(d)]
  {
  }

  /** What an entry that points says once `q` stands for `r`. */
  lemma RewiredTells(g: Geometry, s: State, skip: set<Ref>, t: Table, im: Image, w: Chained, r: Ref, q: Ref, p: Ref)
    requires Settled(g, s, skip, t, im) && Lags(s, skip, w) && PointsAt(g, im, w, p) && p !in skip - {q} + {r}
    requires Has(s, q) && Told(g, im, s.chains, q, Rec(s, q))
    ensures Has(s, p) && Tells(Target(g, im, w, p), Rec(s, p)) && 2 <= ClusterOf(Target(g, im, w, p))
  {
    if p == q {
      assert Recounted(0);
      ShownEntry(g, t, im, s, skip, w, q);
    } else {
      PointsAtNode(g, s, skip, t, im, w, p, skip);
    }
  }

  lemma RewiredLeads(g: Geometry, s: State, skip: set<Ref>, t: Table, im: Image, disk: Table, w: Chained, r: Ref,
      q: Ref, p: Ref)
    requires Settled(g, s, skip, t, im) && Lags(s, skip, w) && SafeBy(g, skip, Moment(im, disk), w)
    requires Has(s, r) && r !in skip && Has(s, q) && q in skip && q != r
    requires Rec(s, q) == Rec(s, r).(name := Rec(s, q).name, slots := Rec(s, q).slots)
    requires Told(g, im, s.chains, q, Rec(s, q))
    requires PointsAt(g, im, w, p) && p !in skip - {q} + {r}
    ensures Leads(Rewired(w, r, q), p, Target(g, im, w, p))
  {
    RewiredTells(g, s, skip, t, im, w, r, q, p);
    if p == q {
      NodeOf(g, s, skip, r);
      assert Trailed(0);
      assert Reaches(w, r, Rec(s, r));
    } else {
      assert Witnessed(0);
    }
  }

  lemma RewiredSub(g: Geometry, s: State, skip: set<Ref>, t: Table, im: Image, w: Chained, r: Ref, q: Ref, p: Ref)
    requires Settled(g, s, skip, t, im) && Lags(s, skip, w) && Has(s, r) && r !in skip && Has(s, q) && q in skip
    requires q != r
    requires Rec(s, q) == Rec(s, r).(name := Rec(s, q).name, slots := Rec(s, q).slots)
    requires Told(g, im, s.chains, q, Rec(s, q))
    requires PointsDir(g, skip - {q} + {r}, im, Rewired(w, r, q), p)
    ensures var p' := if p == q then r else p;
      IsSub(s, skip, p') && Rec(s, p').cluster == ClusterOf(Target(g, im, Rewired(w, r, q), p)) && p != r
  {
    RewiredEntries(g, im, w, r, q);
    assert PointsAt(g, im, w, p);
    RewiredTells(g, s, skip, t, im, w, r, q, p);
  }

  lemma RewiredLags(s: State, skip: set<Ref>, w: Chained, r: Ref, q: Ref)
    requires Lags(s, skip, w) && Has(s, r) && r !in skip && Has(s, q) && q in skip && q != r
    requires Rec(s, q).isDir == Rec(s, r).isDir && Rec(s, q).cluster == Rec(s, r).cluster
    requires Rec(s, r).isDir || OfFile(r) in s.chains
    ensures Lags(Handed(s, r, q), skip - {q} + {r}, Rewired(w, r, q))
  {
    assert Trailed(0);
    var s', w' := Handed(s, r, q), Rewired(w, r, q);
    forall p | Has(s', p) && p !in skip - {q} + {r} ensures Reaches(w', p, Rec(s', p)) {
      assert Has(s, p) && Rec(s', p) == Rec(s, p);
      assert Reaches(w, if p == q then r else p, Rec(s, if p == q then r else p));
    }
  }
}
