/** A mounted volume with its lists of nodes: what `fat_ops` offers (kernel/fat32.c:603-722,
    kernel/fat32.c:731-934, kernel/fat32.c:1162-1410). */
module FileSystem {
  import opened Bytes
  import opened Geometry
  import opened Quotient
  import opened Chains
  import opened FatCache
  import opened ClusterData
  import opened Evolution
  import opened Allocation
  import opened Growth
  import opened FileBytes
  import opened Resizing
  import opened Names
  import opened LongNames
  import opened ShortNames
  import opened Layout
  import opened Edits
  import opened Spelling
  import opened NodeList
  import opened DirectoryIo
  import opened Directory
  import opened Entering
  import opened Ownership
  import opened World
  import opened Keeping
  import opened CrashSafety
  import opened Steps
  import opened Paths
  import opened FileOps
  import opened DirOps

  /** The nodes of directory `d`, read from its entries on the device. */
  method ReadList(fat: Fat, d: nat, ghost s: State, ghost lost: set<nat>) returns (kids: seq<Node>)
    requires Ready(fat, s, {}, lost) && d in s.tree
    modifies fat.dev, fat`memoFirst, fat`memoIndex, fat`memoCluster, fat`linkSteps
    ensures Ready(fat, s, {}, lost) && fat.dev.fat == old(fat.dev.fat)
    ensures Listed(kids, ReadDir(DirEntries(fat.dev.g, old(fat.dev.sectors), s.chains, d)))
    ensures old(!fat.dev.dirty) ==> !fat.dev.dirty && fat.dev.sectors == old(fat.dev.sectors)
    ensures Carried(fat.dev.g, old(fat.dev.sectors), s, fat.dev.sectors, s, {}, {})
    ensures SafeLog(fat.dev.g, s.tree.Keys, {}, old(fat.dev.log), fat.dev.log)
  {
    ghost var g := fat.dev.g;
    assert Moored(0);
    DirFacts(g, s, {}, lost, View(fat, [], false), d);
    ghost var cs := s.chains[OfDir(d)];
    ghost var a, e := View(fat, cs, true), EntriesOf(g, fat.dev.sectors, cs);
    kids := Populate(fat, d, cs, e);
    StaysRefl(e, s.tree[d]);
    ReservedIn(g, s, lost, a, View(fat, cs, true), d, e);
    assert Grew(s, d, cs) == s by {
      assert s.chains[OfDir(d) := cs] == s.chains;
    }
  }

  /** The first clusters of the directories in a list. */
  function SubDirs(kids: seq<Node>): (r: seq<nat>)
    ensures forall v :: v in r <==> exists k :: 0 <= k < |kids| && kids[k].record.isDir && kids[k].record.cluster == v
  {
    if kids == [] then []
    else
      var r := SubDirs(kids[..|kids| - 1]);
      if kids[|kids| - 1].record.isDir then r + [kids[|kids| - 1].record.cluster] else r
  }

  ghost predicate Surveyed(n: int) { true }

  /** Some directories were read, starting at the root, and those they list were read or are still to be; folded behind
      `Surveyed`. */
  ghost predicate Survey(t: Tree, root: nat, nodes: Lists, todo: seq<nat>) {
    forall n: int :: Surveyed(n) ==>
      && (forall d :: d in nodes ==> d in t && Listed(nodes[d], t[d])) && (root in nodes || root in todo)
      && nodes.Keys <= Reach(t, root) && (forall d :: d in todo ==> d in Reach(t, root))
      && forall b, c :: b in nodes && Child(t, b, c) ==> c in nodes || c in todo
  }

  lemma SurveyStarts(t: Tree, root: nat)
    requires root in t
    ensures Survey(t, root, map[], [root])
  {
    UnderSelf(t, root);
  }

  /** One more directory was read. */
  lemma SurveyGoes(t: Tree, root: nat, nodes: Lists, todo: seq<nat>, kids: seq<Node>)
    requires todo != [] && Survey(t, root, nodes, todo) && todo[0] in t && Listed(kids, t[todo[0]])
    requires forall at :: at in t[todo[0]] && t[todo[0]][at].isDir ==> t[todo[0]][at].cluster in t
    ensures Survey(t, root, nodes[todo[0] := kids], todo[1..] + SubDirs(kids))
  {
    assert Surveyed(0);
    var d := todo[0];
    assert d in todo;
    ListedIs(kids, t[d]);
    forall v | v in SubDirs(kids) ensures v in Reach(t, root) {
      var k :| 0 <= k < |kids| && kids[k].record.isDir && kids[k].record.cluster == v;
      ListedHas(kids, t[d], kids[k]);
      assert Ref(d, kids[k].at).at in t[d];
      assert Enters(t, Ref(d, kids[k].at), v);
      UnderChild(t, root, d, v);
    }
    forall c | Child(t, d, c) ensures c in SubDirs(kids) {
      var at: nat :| Enters(t, Ref(d, at), c);
      var k := ListedAt(kids, t[d], at);
      ListedHas(kids, t[d], kids[k]);
    }
    forall c | c in todo ensures c == d || c in todo[1..] {
    }
  }

  /** It was read before. */
  lemma SurveySkips(t: Tree, root: nat, nodes: Lists, todo: seq<nat>)
    requires todo != [] && Survey(t, root, nodes, todo) && todo[0] in nodes
    ensures Survey(t, root, nodes, todo[1..])
  {
    assert Surveyed(0);
    forall c | c in todo ensures c == todo[0] || c in todo[1..] {
    }
  }

  lemma SurveyNext(t: Tree, root: nat, nodes: Lists, todo: seq<nat>)
    requires todo != [] && Survey(t, root, nodes, todo)
    ensures todo[0] in t && nodes.Keys <= t.Keys
  {
    assert Surveyed(0);
    assert todo[0] in todo;
  }

  lemma SurveyReads(g: Geometry, s: State, lost: set<nat>, a: Snap, nodes: Lists, todo: seq<nat>, kids: seq<Node>)
    requires Stands(g, s, {}, lost, a) && Synced(g, a.image, s) && todo != [] && todo[0] in s.tree
    requires Survey(s.tree, s.root, nodes, todo) && Listed(kids, ReadDir(DirEntries(g, a.image, s.chains, todo[0])))
    ensures Survey(s.tree, s.root, nodes[todo[0] := kids], todo[1..] + SubDirs(kids))
  {
    TreeOf(g, s, lost, a);
    SurveyGoes(s.tree, s.root, nodes, todo, kids);
  }

  lemma SurveyEnds(t: Tree, root: nat, nodes: Lists)
    requires Survey(t, root, nodes, [])
    ensures nodes.Keys == Reach(t, root) && forall d :: d in nodes ==> d in t && Listed(nodes[d], t[d])
  {
    assert Surveyed(0);
    forall d | d in Reach(t, root) ensures d in nodes {
      Closed(t, root, d, nodes.Keys);
    }
  }

  /** A mount that knows nothing but the root and looks into every directory it finds: it finds those that can be
      reached, each with its nodes. */
  method Discover(fat: Fat, root: nat, ghost s: State, ghost lost: set<nat>) returns (nodes: Lists)
    requires Ready(fat, s, {}, lost) && !fat.dev.dirty && root == s.root && Synced(fat.dev.g, fat.dev.sectors, s)
    modifies fat.dev, fat`memoFirst, fat`memoIndex, fat`memoCluster, fat`linkSteps
    ensures Ready(fat, s, {}, lost) && !fat.dev.dirty && fat.dev.fat == old(fat.dev.fat)
    ensures fat.dev.sectors == old(fat.dev.sectors)
    ensures nodes.Keys == Reach(s.tree, root) && forall d :: d in nodes ==> d in s.tree && Listed(nodes[d], s.tree[d])
  {
    assert Moored(0);
    ghost var g, a := fat.dev.g, View(fat, [], false);
    RootThere(g, s, lost, a);
    nodes := map[];
    var todo := [root];
    SurveyStarts(s.tree, root);
    while todo != []
      invariant Ready(fat, s, {}, lost) && !fat.dev.dirty && fat.dev.fat == a.table && fat.dev.sectors == a.image
      invariant Survey(s.tree, root, nodes, todo)
      decreases s.tree.Keys - nodes.Keys, |todo|
    {
      var d := todo[0];
      SurveyNext(s.tree, root, nodes, todo);
      if d in nodes {
        SurveySkips(s.tree, root, nodes, todo);
        todo := todo[1..];
      } else {
        var kids := ReadList(fat, d, s, lost);
        SurveyReads(g, s, lost, a, nodes, todo, kids);
        assert s.tree.Keys - nodes[d := kids].Keys == (s.tree.Keys - nodes.Keys) - {d};
        assert d in s.tree.Keys - nodes.Keys;
        nodes, todo := nodes[d := kids], todo[1..] + SubDirs(kids);
      }
    }
    SurveyEnds(s.tree, root, nodes);
  }

  lemma RootThere(g: Geometry, s: State, lost: set<nat>, a: Snap)
    requires Stands(g, s, {}, lost, a)
    ensures s.root in s.tree
  {
    assert Shaped(0);
  }

  lemma TreeOf(g: Geometry, s: State, lost: set<nat>, a: Snap)
    requires Stands(g, s, {}, lost, a) && Synced(g, a.image, s)
    ensures forall d :: d in s.tree ==> ReadDir(DirEntries(g, a.image, s.chains, d)) == s.tree[d]
    ensures forall d, at :: d in s.tree && at in s.tree[d] && s.tree[d][at].isDir ==> s.tree[d][at].cluster in s.tree
  {
    SyncedIs(g, a.image, s, {});
    assert Shaped(0);
    forall d, at | d in s.tree && at in s.tree[d] && s.tree[d][at].isDir ensures s.tree[d][at].cluster in s.tree {
      assert Has(s, Ref(d, at)) && NodeOk(g, s, Ref(d, at));
    }
  }

  /** The device alone, read through its own table, shows the tree: from each of its directories a chain starts whose
      entries a scan reads as the nodes that directory has. */
  ghost predicate Shows(g: Geometry, im: Image, tree: Tree)
    requires g.Valid() && Fits(g, im)
  {
    forall d :: d in tree ==> ShowsDir(g, im, d, tree[d])
  }

  ghost predicate ShowsDir(g: Geometry, im: Image, d: nat, c: Index)
    requires g.Valid() && Fits(g, im)
  {
    exists cs :: IsChain(Primary(g, im), cs) && cs[0] == d && InVolume(g, cs) && ReadDir(EntriesOf(g, im, cs)) == c
  }

  /** Once everything is on the device, being in step is a matter of the device alone. */
  lemma SyncedShows(g: Geometry, s: State, lost: set<nat>, a: Snap)
    requires Stands(g, s, {}, lost, a) && a.table == Primary(g, a.image)
    ensures Synced(g, a.image, s) <==> Shows(g, a.image, s.tree)
  {
    SyncedIs(g, a.image, s, {});
    forall d | d in s.tree
      ensures ShowsDir(g, a.image, d, s.tree[d]) <==> ReadDir(DirEntries(g, a.image, s.chains, d)) == s.tree[d]
    {
      DirShown(g, s, lost, a, d);
    }
  }

  lemma DirShown(g: Geometry, s: State, lost: set<nat>, a: Snap, d: nat)
    requires Stands(g, s, {}, lost, a) && a.table == Primary(g, a.image) && d in s.tree
    ensures ShowsDir(g, a.image, d, s.tree[d]) <==> ReadDir(DirEntries(g, a.image, s.chains, d)) == s.tree[d]
  {
    DirFacts(g, s, {}, lost, a, d);
    var ch := s.chains[OfDir(d)];
    if ShowsDir(g, a.image, d, s.tree[d]) {
      var cs :| IsChain(a.table, cs) && cs[0] == d && InVolume(g, cs)
        && ReadDir(EntriesOf(g, a.image, cs)) == s.tree[d];
      ChainUnique(a.table, cs, ch);
    }
  }

  /** A new cache over a device that holds everything sees what the old one saw. */
  lemma RemountStands(g: Geometry, s: State, lost: set<nat>, a: Snap, b: Snap)
    requires Stands(g, s, {}, lost, a) && Sound(g, b) && b.image == a.image && b.table == a.table && b.disk == a.disk
    ensures Stands(g, s, {}, lost, b)
  {
  }

  /** Lists read from the device are the tree's exactly if the volume is in step. */
  lemma ReadBackIs(g: Geometry, im: Image, s: State, nodes: Lists)
    requires Entered(g, im, s, {}) && nodes.Keys == s.tree.Keys
    requires forall d :: d in nodes ==> Listed(nodes[d], ReadDir(DirEntries(g, im, s.chains, d)))
    ensures Catalog(nodes, s.tree) <==> Synced(g, im, s)
  {
    SyncedIs(g, im, s, {});
    assert Catalogued(0);
    if Catalog(nodes, s.tree) {
      forall d | d in s.tree ensures ReadDir(DirEntries(g, im, s.chains, d)) == s.tree[d] {
        ListedSame(nodes[d], ReadDir(DirEntries(g, im, s.chains, d)), s.tree[d]);
      }
    }
  }

  datatype Code = Done | NoEntry | NotDir | IsDir | NotEmpty | NameTooLong | NoSpace

  /** The nodes of each directory, in the order they were listed. */
  type Lists = map<nat, seq<Node>>

  ghost predicate Catalogued(n: int) { true }

  /** The lists are the tree's; folded behind `Catalogued`. */
  ghost predicate Catalog(lists: Lists, tree: Tree) {
    lists.Keys == tree.Keys && forall n: int :: Catalogued(n) ==> forall d :: d in tree ==> Listed(lists[d], tree[d])
  }

  lemma ListOf(lists: Lists, tree: Tree, d: nat)
    requires Catalog(lists, tree) && d in tree
    ensures d in lists && Listed(lists[d], tree[d])
  {
    assert Catalogued(0);
  }

  /** The node at place `k` of a list is the tree's. */
  lemma NodeAt(lists: Lists, s: State, d: nat, k: nat)
    requires Catalog(lists, s.tree) && d in lists && k < |lists[d]|
    ensures Has(s, Ref(d, lists[d][k].at)) && Rec(s, Ref(d, lists[d][k].at)) == lists[d][k].record
  {
    ListOf(lists, s.tree, d);
    ListedHas(lists[d], s.tree[d], lists[d][k]);
  }

  lemma CatalogSet(lists: Lists, tree: Tree, d: nat, kids: seq<Node>, c: Index)
    requires Catalog(lists, tree) && d in tree && Listed(kids, c)
    ensures Catalog(lists[d := kids], tree[d := c])
  {
    assert Catalogued(0);
  }

  lemma CatalogNew(lists: Lists, tree: Tree, v: nat)
    requires Catalog(lists, tree)
    ensures Catalog(lists[v := []], tree[v := map[]])
  {
    assert Catalogued(0);
    ListedIs([], map[]);
  }

  lemma CatalogGone(lists: Lists, tree: Tree, v: nat)
    requires Catalog(lists, tree)
    ensures Catalog(lists - {v}, tree - {v})
  {
    assert Catalogued(0);
  }

  lemma CatalogEmpty(lists: Lists, tree: Tree, d: nat)
    requires Catalog(lists, tree) && d in tree
    ensures d in lists && (lists[d] == [] <==> tree[d] == map[])
  {
    ListOf(lists, tree, d);
    ListedIs(lists[d], tree[d]);
    if lists[d] != [] {
      ListedHas(lists[d], tree[d], lists[d][0]);
    }
  }

  lemma DirNumber(g: Geometry, s: State, lost: set<nat>, a: Snap, d: nat)
    requires Stands(g, s, {}, lost, a) && d in s.tree
    ensures 2 <= d < WORD
  {
    DirFacts(g, s, {}, lost, a, d);
  }

  /** What `fat_unlink` answers; `occupied` says whether the directory to be removed has nodes. */
  function UnlinkCode(kids: seq<Node>, name: seq<Byte>, wantDir: bool, occupied: bool): Code {
    var k := FirstNamed(kids, name);
    if k < 0 then NoEntry
    else if wantDir && !kids[k].record.isDir then NotDir
    else if !wantDir && kids[k].record.isDir then IsDir
    else if wantDir && occupied then NotEmpty
    else Done
  }

  datatype Option<T> = None | Some(value: T)

  /** What `fat_rename` answers before it looks for room; `Done` when the name is already the node's. */
  ghost function RenameCheck(from: seq<Node>, oldName: seq<Byte>, to: seq<Node>, newName: seq<Byte>,
      same: bool): Option<Code> {
    var m, v := FirstNamed(from, oldName), FirstNamed(to, newName);
    if m < 0 then Some(NoEntry)
    else if |newName| >= NAME_MAX then Some(NameTooLong)
    else if v >= 0 && same && m == v then Some(Done)
    else if v >= 0 && to[v].record.isDir then Some(IsDir)
    else None
  }

  /** The list once the first node called `name` has been taken out. */
  ghost function Cleared(kids: seq<Node>, name: seq<Byte>): seq<Node> {
    var k := FirstNamed(kids, name);
    if k < 0 then kids else Drop(kids, kids[k].at)
  }

  class FileSystem {
    const fat: Fat
    const root: nat
    var lists: Lists
    ghost var s: State
    ghost const lost: set<nat>    // clusters in use that belonged to nothing when the volume was mounted

    /** Tree, chains, entries, table and lists agree: every chain is well formed, no two meet, every cluster is
        free, owned or lost, and the device is safe as it stands. */
    ghost predicate Valid()
      reads this, fat, fat.dev
    {
      Ready(fat, s, {}, lost) && s.root == root && s.chains[Spare] == [] && Catalog(lists, s.tree)
    }

    constructor (f: Fat, first: nat, nodes: Lists, ghost state: State, ghost gone: set<nat>)
      requires Ready(f, state, {}, gone) && state.root == first && state.chains[Spare] == []
      requires Catalog(nodes, state.tree)
      ensures Valid() && fat == f && root == first && lists == nodes && s == state && lost == gone
    {
      fat, root, lists, s, lost := f, first, nodes, state, gone;
    }

    /** A freshly formatted volume: a root directory of one zeroed cluster and nothing else. */
    constructor Blank(f: Fat, first: nat)
      requires f.Valid() && f.dev.g.InRange(first) && FAT_BAD <= f.dev.fat[first]
      requires ZeroedCluster(f.dev.g, f.dev.sectors, first)
      requires f.dev.disk == f.dev.fat
      ensures Valid() && fat == f && root == first && lists == map[first := []] && s == BlankState(first) && InSync()
      ensures Whole()
    {
      ghost var a, gone := View(f, [], false), set c: nat | 2 <= c < |f.dev.fat| && c != first && f.dev.fat[c] != 0;
      BlankStands(f.dev.g, a, first, gone);
      fat, root, lists, s, lost := f, first, map[first := []], BlankState(first), gone;
      assert Mirrored(0);
      BlankCatalog(first);
      UnderSelf(BlankState(first).tree, first);
    }

    /** The entries of directory `d` on the device. */
    ghost function Entries(d: nat): Layout.Entries
      requires Valid()
      reads this, fat, fat.dev
    {
      DirEntries(fat.dev.g, fat.dev.sectors, s.chains, d)
    }

    /** The bytes of the file at `r`. */
    ghost function Contents(r: Ref): seq<Byte>
      requires Valid()
      reads this, fat, fat.dev
    {
      BytesOf(fat.dev.g, fat.dev.sectors, s, r)
    }

    /** What its clusters hold past its end. */
    ghost function Slack(r: Ref): seq<Byte>
      requires Valid()
      reads this, fat, fat.dev
    {
      SlackOf(fat.dev.g, fat.dev.sectors, s, r)
    }

    /** A remount would make exactly these nodes. */
    ghost predicate InSync()
      requires Valid()
      reads this, fat, fat.dev
    {
      Synced(fat.dev.g, fat.dev.sectors, s)
    }

    /** Everything done so far is on the device: nothing is left in the cache to be written. */
    ghost predicate OnDevice()
      reads this, fat, fat.dev
    {
      !fat.dev.dirty && fat.dev.disk == fat.dev.fat
    }

    /** Once everything is on the device, a volume in step is one whose device shows the tree there is in memory. */
    lemma InStepOnDevice()
      requires Valid() && OnDevice()
      ensures InSync() <==> Shows(fat.dev.g, fat.dev.sectors, s.tree)
    {
      assert Moored(0) && Opened(0);
      SyncedShows(fat.dev.g, s, lost, View(fat, [], false));
    }

    /** Every directory can be reached from the root. */
    ghost predicate Whole()
      reads this
    {
      Connected(s.tree, s.root)
    }

    ghost predicate IsFileNode(d: nat, k: nat)
      reads this
    {
      d in lists && k < |lists[d]| && !lists[d][k].record.isDir
    }

    ghost function RefOf(d: nat, k: nat): Ref
      requires d in lists && k < |lists[d]|
      reads this
    {
      Ref(d, lists[d][k].at)
    }

    /** `fat_finddir`: the first node of that name. */
    method FindName(d: nat, name: seq<Byte>) returns (k: int)
      requires d in lists
      ensures k == FirstNamed(lists[d], name)
    {
      var kids := lists[d];
      k := 0;
      while k < |kids|
        invariant 0 <= k <= |kids|
        invariant forall j :: 0 <= j < k ==> kids[j].record.name != name
      {
        if kids[k].record.name == name {
          return;
        }
        k := k + 1;
      }
      k := -1;
    }

    /** `populate`: the nodes made are those the scan of the device finds, and those in memory exactly when the
        volume is in step. */
    method Reread(d: nat) returns (kids: seq<Node>)
      requires Valid() && d in lists
      modifies fat.dev, fat`memoFirst, fat`memoIndex, fat`memoCluster, fat`linkSteps
      ensures Valid() && Listed(kids, ReadDir(old(Entries(d)))) && (old(InSync()) ==> Listed(kids, s.tree[d]))
      ensures Carried(fat.dev.g, old(fat.dev.sectors), s, fat.dev.sectors, s, {}, {})
      ensures old(!fat.dev.dirty) ==> !fat.dev.dirty
      ensures SafeLog(fat.dev.g, s.tree.Keys, {}, old(fat.dev.log), fat.dev.log)
    {
      if InSync() {
        assert Moored(0);
        SyncedIs(fat.dev.g, fat.dev.sectors, s, {});
      }
      kids := ReadList(fat, d, s, lost);
    }

    /** `fat32_sync`, which every operation that succeeds has already done: the table goes to the device. */
    method Sync()
      requires Valid()
      modifies fat.dev
      ensures Valid() && OnDevice() && fat.dev.fat == old(fat.dev.fat) && (old(fat.Exact()) ==> fat.Exact())
      ensures Carried(fat.dev.g, old(fat.dev.sectors), s, fat.dev.sectors, s, {}, {}) && (InSync() <==> old(InSync()))
      ensures SafeLog(fat.dev.g, s.tree.Keys, {}, old(fat.dev.log), fat.dev.log)
      ensures old(!fat.dev.dirty) ==> fat.dev.sectors == old(fat.dev.sectors) && fat.dev.log == old(fat.dev.log)
    {
      ghost var a := View(fat, [], false);
      FlushIn(fat, s, {}, lost);
      SafeLogOf(fat.dev.g, s, {}, a.log, fat.dev.log, s.tree.Keys, {});
      SyncedStill(fat.dev.g, a.image, s, fat.dev.sectors, s);
    }

    /** A mount of the device as it stands, with nothing kept but the number of the root directory and, to know where to
        look, those of the others: the same volume, and in each directory the nodes its entries on the device make. They
        are the nodes there were in memory exactly when the volume is in step. */
    method Remount(hint: nat, count: nat) returns (f: Fat, nodes: Lists)
      requires Valid() && OnDevice()
      ensures fresh(f) && fresh(f.dev) && f.dev.g == fat.dev.g && f.dev.sectors == fat.dev.sectors
      ensures f.dev.fat == fat.dev.fat
      ensures Ready(f, s, {}, lost) && !f.dev.dirty && f.dev.disk == f.dev.fat && nodes.Keys == lists.Keys
      ensures forall d :: d in nodes ==> Listed(nodes[d], ReadDir(Entries(d)))
      ensures Catalog(nodes, s.tree) <==> InSync()
    {
      f := Attach(hint, count);
      ghost var dev := f.dev;
      nodes := map[];
      var todo := lists.Keys;
      while todo != {}
        invariant fresh(f) && fresh(f.dev) && f.dev == dev && f.dev.g == fat.dev.g && Ready(f, s, {}, lost)
        invariant !f.dev.dirty && f.dev.fat == fat.dev.fat && f.dev.sectors == fat.dev.sectors
        invariant todo <= lists.Keys && nodes.Keys == lists.Keys - todo
        invariant forall d :: d in nodes ==> Listed(nodes[d], ReadDir(Entries(d)))
        decreases todo
      {
        var d :| d in todo;
        var kids := ReadList(f, d, s, lost);
        nodes := nodes[d := kids];
        todo := todo - {d};
      }
      assert Moored(0);
      ReadBackIs(fat.dev.g, fat.dev.sectors, s, nodes);
    }

    /** A new, empty cache over the device. */
    method Attach(hint: nat, count: nat) returns (f: Fat)
      requires Valid() && OnDevice()
      ensures fresh(f) && fresh(f.dev) && f.dev.g == fat.dev.g && f.dev.sectors == fat.dev.sectors
      ensures f.dev.fat == fat.dev.fat
      ensures Ready(f, s, {}, lost) && !f.dev.dirty && f.dev.disk == f.dev.fat
    {
      var dev := new FatCache(fat.dev.g, fat.dev.sectors);
      f := new Fat(dev, hint, count);
      assert f.dev.fat == fat.dev.fat by {
        assert Opened(0);
      }
      assert Moored(0);
      RemountStands(fat.dev.g, s, lost, View(fat, [], false), View(f, [], false));
    }

    /** Unmounted and mounted again, from the root on: in step and with every directory in reach, the volume is the one
        there was. */
    method Reopen(hint: nat, count: nat) returns (again: FileSystem)
      requires Valid() && OnDevice() && InSync() && Whole()
      ensures fresh(again) && fresh(again.fat) && fresh(again.fat.dev) && again.Valid() && again.OnDevice()
      ensures again.root == root && again.s == s && again.lost == lost && again.lists.Keys == lists.Keys
      ensures again.fat.dev.sectors == fat.dev.sectors && again.fat.dev.fat == fat.dev.fat && again.InSync()
      ensures forall d :: d in lists ==> Listed(again.lists[d], s.tree[d])
    {
      var f := Attach(hint, count);
      var nodes := Discover(f, root, s, lost);
      assert nodes.Keys == s.tree.Keys by {
        assert Explored(0);
      }
      again := new FileSystem(f, root, nodes, s, lost);
      assert Catalogued(0);
    }

    /** `fat_read_node`. */
    method Read(d: nat, k: nat, offset: nat, size: nat) returns (out: seq<Byte>)
      requires Valid() && IsFileNode(d, k) && offset + size < WORD
      modifies fat.dev, fat`memoFirst, fat`memoIndex, fat`memoCluster, fat`linkSteps
      ensures Valid() && out == Slice(old(Contents(RefOf(d, k))), offset, size)
      ensures size > 0 ==> fat.linkSteps <= old(fat.linkSteps) + Quot((offset + size - 1) / 512, fat.dev.g.spc)
      ensures Carried(fat.dev.g, old(fat.dev.sectors), s, fat.dev.sectors, s, {}, {})
      ensures old(fat.Exact()) ==> fat.Exact()
      ensures SafeLog(fat.dev.g, s.tree.Keys, {}, old(fat.dev.log), fat.dev.log)
    {
      NodeAt(lists, s, d, k);
      var node := lists[d][k];
      out := ReadFile(fat, Ref(d, node.at), node.record, offset, size, s, lost);
    }

    /** The node at place `k` of directory `d` has a new record and new clusters. */
    method SetNode(d: nat, k: nat, now: Record, ghost ch: seq<nat>)
      requires Catalog(lists, s.tree) && d in lists && k < |lists[d]|
      modifies this`lists, this`s
      ensures lists == old(lists)[d := old(lists)[d][k := Node(old(lists)[d][k].at, now)]]
      ensures s == Updated(old(s), Ref(d, old(lists)[d][k].at), now, ch) && Catalog(lists, s.tree)
    {
      var kids := lists[d];
      ghost var r := Ref(d, kids[k].at);
      ListOf(lists, s.tree, d);
      ListedReplace(kids, s.tree[d], k, now);
      CatalogSet(lists, s.tree, d, kids[k := Node(kids[k].at, now)], s.tree[d][kids[k].at := now]);
      s := Updated(s, r, now, ch);
      lists := lists[d := kids[k := Node(kids[k].at, now)]];
    }

    /** `fat_write`. Exact inside the file and at its end; past the end there is a gap, which reads as zero exactly if
        the slack it covers was zero. */
    method Write(d: nat, k: nat, offset: nat, data: seq<Byte>, stamp: Stamp) returns (ok: bool)
      requires Valid() && IsFileNode(d, k) && data != [] && offset + |data| + fat.dev.g.ClusterBytes() < WORD
      modifies this`lists, this`s, fat, fat.dev
      ensures Valid()
      ensures var r, was := old(RefOf(d, k)), old(lists)[d][k].record;
        && OfFile(r) in old(s).chains
          && (ok <==> Need(fat.dev.g, offset + |data|) - |old(s).chains[OfFile(r)]| <= FreeCount(old(fat.dev.fat)))
        && Has(s, r) && OfFile(r) in s.chains && lists == old(lists)[d := old(lists)[d][k := Node(r.at, Rec(s, r))]]
        && s == Updated(old(s), r, Rec(s, r), s.chains[OfFile(r)])
        && Rec(s, r) ==
          (if ok then was.(cluster := Rec(s, r).cluster, length := Max(was.length, offset + |data|)) else was)
        && FreeCount(fat.dev.fat) + |s.chains[OfFile(r)]| == FreeCount(old(fat.dev.fat)) + |old(s).chains[OfFile(r)]|
        && (ok && was.length < offset ==>
          (AllZero(Contents(r), was.length, offset) <==> AllZero(old(Slack(RefOf(d, k))), 0, offset - was.length)))
        && Contents(r) ==
          (if ok then Written(old(Contents(RefOf(d, k))), old(Slack(RefOf(d, k))), offset, data)
          else old(Contents(RefOf(d, k))))
        && Carried(fat.dev.g, old(fat.dev.sectors), old(s), fat.dev.sectors, s, {r}, {r})
      ensures (old(fat.Exact()) ==> fat.Exact()) && (ok ==> OnDevice())
      ensures old(Whole()) ==> Whole()
      ensures InStep(fat.dev.g, old(fat.dev.sectors), old(s), fat.dev.sectors, s, true)
      ensures SafeLog(fat.dev.g, old(s).tree.Keys, {}, old(fat.dev.log), fat.dev.log)
    {
      NodeAt(lists, s, d, k);
      var node := lists[d][k];
      var now;
      ghost var ch;
      ghost var a := fat.dev.sectors;
      ContentsLength(d, k);
      GapReadsZero(Contents(RefOf(d, k)), Slack(RefOf(d, k)), offset, data);
      ok, now, ch := WriteFile(fat, Ref(d, node.at), node.record, offset, data, stamp, s, lost);
      FilePut(s, Ref(d, node.at), now);
      SetNode(d, k, now, ch);
      SameConnected(old(s).tree, s.tree, s.root);
      OneReadsBack(fat.dev.g, a, old(s), fat.dev.sectors, s, Ref(d, node.at));
    }

    /** `fat_truncate`. */
    method Truncate(d: nat, k: nat, length: nat, stamp: Stamp) returns (ok: bool)
      requires Valid() && IsFileNode(d, k) && length + fat.dev.g.ClusterBytes() + 512 < WORD
      modifies this`lists, this`s, fat, fat.dev
      ensures Valid()
      ensures var r, was := old(RefOf(d, k)), old(lists)[d][k].record;
        && OfFile(r) in old(s).chains
        && (ok <==>
          length <= was.length || Need(fat.dev.g, length) - |old(s).chains[OfFile(r)]| <= FreeCount(old(fat.dev.fat)))
        && Has(s, r) && OfFile(r) in s.chains && lists == old(lists)[d := old(lists)[d][k := Node(r.at, Rec(s, r))]]
        && s == Updated(old(s), r, Rec(s, r), s.chains[OfFile(r)])
        && Rec(s, r) == (if ok then was.(cluster := Rec(s, r).cluster, length := length) else was)
        && (length < was.length ==> |s.chains[OfFile(r)]| == Need(fat.dev.g, length))
        && FreeCount(fat.dev.fat) + |s.chains[OfFile(r)]| == FreeCount(old(fat.dev.fat)) + |old(s).chains[OfFile(r)]|
        && Contents(r) == Resized(old(Contents(RefOf(d, k))), if ok then length else was.length)
        && (length < was.length && Need(fat.dev.g, was.length) == Need(fat.dev.g, length) ==>
          CutOff(old(Contents(RefOf(d, k))), length) <= Slack(r))
        && Carried(fat.dev.g, old(fat.dev.sectors), old(s), fat.dev.sectors, s, {r}, {r})
        && SafeLog(fat.dev.g, old(s).tree.Keys, {r}, old(fat.dev.log), fat.dev.log)
        && (SafeLog(fat.dev.g, old(s).tree.Keys, {}, old(fat.dev.log), fat.dev.log) <==>
          (0 < length || was.length == 0))
      ensures (old(fat.Exact()) ==> fat.Exact()) && (ok ==> OnDevice())
      ensures old(Whole()) ==> Whole()
      ensures InStep(fat.dev.g, old(fat.dev.sectors), old(s), fat.dev.sectors, s, true)
    {
      NodeAt(lists, s, d, k);
      var node := lists[d][k];
      var now;
      ghost var ch;
      ghost var a := fat.dev.sectors;
      ok, now, ch := TruncateFile(fat, Ref(d, node.at), node.record, length, stamp, s, lost);
      FilePut(s, Ref(d, node.at), now);
      SetNode(d, k, now, ch);
      SameConnected(old(s).tree, s.tree, s.root);
      OneReadsBack(fat.dev.g, a, old(s), fat.dev.sectors, s, Ref(d, node.at));
    }

    /** `vfs_dir_append` of a node that was just entered. */
    method ListNode(d: nat, node: Node, ghost s': State)
      requires Catalog(lists, s.tree) && d in lists && !Has(s, Ref(d, node.at))
      requires s'.tree == Noted(s, Ref(d, node.at), node.record).tree
      modifies this`lists, this`s
      ensures lists == old(lists)[d := old(lists)[d] + [node]] && s == s' && Catalog(lists, s.tree)
    {
      ListOf(lists, s.tree, d);
      ListedAppend(lists[d], s.tree[d], node);
      CatalogSet(lists, s.tree, d, lists[d] + [node], s.tree[d][node.at := node.record]);
      lists, s := lists[d := lists[d] + [node]], s';
    }

    /** `fat_create` of a file: an empty file under the name, or nothing if the name is too long or finds no place. */
    method Create(d: nat, name: seq<Byte>, stamp: Stamp) returns (ok: bool, node: Node, ghost long: bool)
      requires Valid() && d in lists && name != [] && 0 !in name
      modifies this`lists, this`s, fat, fat.dev
      ensures Valid() && long == Long(old(Entries(d)), name)
      ensures ok ==>
        node.record == Record(name, false, 0, 0, SlotsOf(name, long))
        && lists == old(lists)[d := old(lists)[d] + [node]]
      ensures var but := if ok then {Ref(d, node.at)} else {};
        Carried(fat.dev.g, old(fat.dev.sectors), old(s), fat.dev.sectors, s, but, but)
      ensures !ok ==>
        lists == old(lists) && (|name| >= NAME_MAX || NoPlace(old(Entries(d)), name, FreeCount(old(fat.dev.fat))))
      ensures InStep(fat.dev.g, old(fat.dev.sectors), old(s), fat.dev.sectors, s, ok ==> Kept(name, long))
      ensures (old(fat.Exact()) ==> fat.Exact()) && (ok ==> OnDevice())
      ensures old(Whole()) ==> Whole()
      ensures SafeLog(fat.dev.g, old(s).tree.Keys, {}, old(fat.dev.log), fat.dev.log)
    {
      if |name| >= NAME_MAX {
        long := Long(Entries(d), name);
        CarriedRefl(fat.dev.g, fat.dev.sectors, s, {}, {});
        InStepRefl(fat.dev.g, fat.dev.sectors, s);
        SafeLogEmpty(fat.dev.g, s.tree.Keys, {}, fat.dev.log);
        return false, Node(0, Record(name, false, 0, 0, 0)), long;
      }
      ok, node, long := CreateNamed(d, name, stamp);
    }

    method CreateNamed(d: nat, name: seq<Byte>, stamp: Stamp) returns (ok: bool, node: Node, ghost long: bool)
      requires Valid() && d in lists && CName(name)
      modifies this`lists, this`s, fat, fat.dev
      ensures Valid() && long == Long(old(Entries(d)), name)
      ensures ok ==>
        node.record == Record(name, false, 0, 0, SlotsOf(name, long))
        && lists == old(lists)[d := old(lists)[d] + [node]]
      ensures var but := if ok then {Ref(d, node.at)} else {};
        Carried(fat.dev.g, old(fat.dev.sectors), old(s), fat.dev.sectors, s, but, but)
      ensures !ok ==> lists == old(lists) && NoPlace(old(Entries(d)), name, FreeCount(old(fat.dev.fat)))
      ensures InStep(fat.dev.g, old(fat.dev.sectors), old(s), fat.dev.sectors, s, ok ==> Kept(name, long))
      ensures (old(fat.Exact()) ==> fat.Exact()) && (ok ==> OnDevice())
      ensures old(Whole()) ==> Whole()
      ensures SafeLog(fat.dev.g, old(s).tree.Keys, {}, old(fat.dev.log), fat.dev.log)
    {
      ghost var g, a, s0 := fat.dev.g, fat.dev.sectors, s;
      ghost var s';
      ok, node, long, s' := CreateFile(fat, d, name, stamp, s, lost);
      ghost var r := Ref(d, node.at);
      if ok {
        FilePut(s, r, node.record);
        ListNode(d, node, s');
        SameConnected(s0.tree, s.tree, s.root);
        InStepIf(g, a, s0, fat.dev.sectors, s, r, r, {r}, {r}, Kept(name, long));
      } else {
        s := s';
        InStepStill(g, a, s0, fat.dev.sectors, s);
      }
    }

    /** `fat_create` of a directory; see `MakeDir` for what its moments show. */
    method Mkdir(d: nat, name: seq<Byte>, stamp: Stamp)
      returns (ok: bool, node: Node, ghost long: bool, ghost landed: nat)
      requires Valid() && d in lists && name != [] && 0 !in name
      modifies this`lists, this`s, fat, fat.dev
      ensures Valid() && long == Long(old(Entries(d)), name)
      ensures ok ==>
        node.record == Record(name, true, 0, node.record.cluster, SlotsOf(name, long))
        && node.record.cluster !in old(lists)
      ensures ok ==> lists == old(lists)[d := old(lists)[d] + [node]][node.record.cluster := []]
      ensures ok ==>
        OfDir(node.record.cluster) in s.chains && s.chains[OfDir(node.record.cluster)] == [node.record.cluster]
      ensures Carried(fat.dev.g, old(fat.dev.sectors), old(s), fat.dev.sectors, s,
        if ok then {Ref(d, node.at)} else {}, {})
      ensures !ok ==> lists == old(lists)
      ensures !ok ==>
        |name| >= NAME_MAX || FreeCount(fat.dev.fat) == 0 || NoPlace(old(Entries(d)), name, FreeCount(old(fat.dev.fat)))
      ensures InStep(fat.dev.g, old(fat.dev.sectors), old(s), fat.dev.sectors, s, ok ==> Kept(name, long))
      ensures (old(fat.Exact()) ==> fat.Exact()) && (ok ==> OnDevice())
      ensures old(Whole()) ==> Whole()
      ensures SafeLog(fat.dev.g, old(s).tree.Keys, if ok then {Ref(d, node.at)} else {}, old(fat.dev.log), fat.dev.log)
      ensures ok ==> |old(fat.dev.log)| <= landed < |fat.dev.log|
      ensures ok && fat.dev.log[landed].table == fat.dev.fat ==>
        SafeLog(fat.dev.g, old(s).tree.Keys, {}, old(fat.dev.log), fat.dev.log)
      ensures OfDir(d) in old(s).chains && OfDir(d) in s.chains
      ensures HasRoom(old(Entries(d)), name) ==> SameChain(old(s), s, d)
      ensures FreeCount(fat.dev.fat) + |s.chains[OfDir(d)]| + (if ok then 1 else 0) ==
        FreeCount(old(fat.dev.fat)) + |old(s).chains[OfDir(d)]|
      ensures OfDir(d) in old(s).chains && (ok && old(!fat.dev.dirty) && HasRoom(old(Entries(d)), name) ==>
        && Foretold(old(Entries(d)), old(fat.dev.fat), old(fat.freeHint), node)
        && (SafeLog(fat.dev.g, old(s).tree.Keys, {}, old(fat.dev.log), fat.dev.log) <==>
              !OneSector(fat.dev.g, old(s).chains[OfDir(d)], node.at, node.record.cluster)))
      ensures ok && fat.dev.log[landed].table == old(fat.dev.fat) && SameChain(old(s), s, d) ==>
        !CrashSafe(fat.dev.g, old(s).tree.Keys, {}, fat.dev.log[landed])
      ensures ok ==> FreshDir(fat.dev.g, fat.dev.sectors, node.record.cluster, if d == root then 0 else d)
    {
      landed := 0;
      if |name| >= NAME_MAX {
        long := Long(Entries(d), name);
        CarriedRefl(fat.dev.g, fat.dev.sectors, s, {}, {});
        InStepRefl(fat.dev.g, fat.dev.sectors, s);
        SafeLogEmpty(fat.dev.g, s.tree.Keys, {}, fat.dev.log);
        ListOf(lists, s.tree, d);
        assert OfDir(d) in s.chains by {
          assert Moored(0);
          DirFacts(fat.dev.g, s, {}, lost, View(fat, [], false), d);
        }
        return false, Node(0, Record(name, false, 0, 0, 0)), long, 0;
      }
      ok, node, long, landed := MkdirNamed(d, name, stamp);
    }

    method MkdirNamed(d: nat, name: seq<Byte>, stamp: Stamp)
      returns (ok: bool, node: Node, ghost long: bool, ghost landed: nat)
      requires Valid() && d in lists && CName(name)
      modifies this`lists, this`s, fat, fat.dev
      ensures Valid() && long == Long(old(Entries(d)), name)
      ensures ok ==>
        node.record == Record(name, true, 0, node.record.cluster, SlotsOf(name, long))
        && node.record.cluster !in old(lists)
      ensures ok ==> lists == old(lists)[d := old(lists)[d] + [node]][node.record.cluster := []]
      ensures ok ==>
        OfDir(node.record.cluster) in s.chains && s.chains[OfDir(node.record.cluster)] == [node.record.cluster]
      ensures Carried(fat.dev.g, old(fat.dev.sectors), old(s), fat.dev.sectors, s,
        if ok then {Ref(d, node.at)} else {}, {})
      ensures !ok ==> lists == old(lists)
      ensures !ok ==> FreeCount(fat.dev.fat) == 0 || NoPlace(old(Entries(d)), name, FreeCount(old(fat.dev.fat)))
      ensures InStep(fat.dev.g, old(fat.dev.sectors), old(s), fat.dev.sectors, s, ok ==> Kept(name, long))
      ensures (old(fat.Exact()) ==> fat.Exact()) && (ok ==> OnDevice())
      ensures old(Whole()) ==> Whole()
      ensures SafeLog(fat.dev.g, old(s).tree.Keys, if ok then {Ref(d, node.at)} else {}, old(fat.dev.log), fat.dev.log)
      ensures ok ==> |old(fat.dev.log)| <= landed < |fat.dev.log|
      ensures ok && fat.dev.log[landed].table == fat.dev.fat ==>
        SafeLog(fat.dev.g, old(s).tree.Keys, {}, old(fat.dev.log), fat.dev.log)
      ensures OfDir(d) in old(s).chains && OfDir(d) in s.chains
      ensures HasRoom(old(Entries(d)), name) ==> SameChain(old(s), s, d)
      ensures FreeCount(fat.dev.fat) + |s.chains[OfDir(d)]| + (if ok then 1 else 0) ==
        FreeCount(old(fat.dev.fat)) + |old(s).chains[OfDir(d)]|
      ensures OfDir(d) in old(s).chains && (ok && old(!fat.dev.dirty) && HasRoom(old(Entries(d)), name) ==>
        && Foretold(old(Entries(d)), old(fat.dev.fat), old(fat.freeHint), node)
        && (SafeLog(fat.dev.g, old(s).tree.Keys, {}, old(fat.dev.log), fat.dev.log) <==>
              !OneSector(fat.dev.g, old(s).chains[OfDir(d)], node.at, node.record.cluster)))
      ensures ok && fat.dev.log[landed].table == old(fat.dev.fat) && SameChain(old(s), s, d) ==>
        !CrashSafe(fat.dev.g, old(s).tree.Keys, {}, fat.dev.log[landed])
      ensures ok ==> FreshDir(fat.dev.g, fat.dev.sectors, node.record.cluster, if d == root then 0 else d)
    {
      ghost var g, a, s0 := fat.dev.g, fat.dev.sectors, s;
      ghost var s', grew;
      assert 2 <= d < WORD by {
        assert Moored(0);
        DirNumber(g, s, lost, View(fat, [], false), d);
      }
      ok, node, long, grew, landed, s' := MakeDir(fat, root, d, name, stamp, s, lost);
      ghost var r := Ref(d, node.at);
      if ok {
        DirPut(s, r, node.record);
        ListDir(d, node, s');
        InStepIf(g, a, s0, fat.dev.sectors, s, r, r, {r}, {}, Kept(name, long));
      } else {
        s := s';
        InStepStill(g, a, s0, fat.dev.sectors, s);
      }
    }

    /** A new directory: listed by its parent, itself an empty list. */
    method ListDir(d: nat, node: Node, ghost s': State)
      requires Catalog(lists, s.tree) && d in lists && !Has(s, Ref(d, node.at)) && node.record.cluster !in s.tree
      requires s'.tree == Noted(s, Ref(d, node.at), node.record).tree[node.record.cluster := map[]]
      modifies this`lists, this`s
      ensures lists == old(lists)[d := old(lists)[d] + [node]][node.record.cluster := []] && s == s'
      ensures Catalog(lists, s.tree)
    {
      ListNode(d, node, s'.(tree := Noted(s, Ref(d, node.at), node.record).tree));
      CatalogNew(lists, s.tree, node.record.cluster);
      lists, s := lists[node.record.cluster := []], s';
    }

    /** `vfs_dir_remove`: takes the node of entry `at` out of the list of `d`. */
    method DropNode(d: nat, at: nat, ghost s': State)
      requires Catalog(lists, s.tree) && d in lists && Has(s, Ref(d, at)) && s'.tree == s.tree[d := s.tree[d] - {at}]
      modifies this`lists, this`s
      ensures lists == old(lists)[d := Drop(old(lists)[d], at)] && s == s' && Catalog(lists, s.tree)
    {
      var kids := lists[d];
      ListOf(lists, s.tree, d);
      ghost var there := ListedAt(kids, s.tree[d], at);
      var k := 0;
      while kids[k].at != at
        invariant 0 <= k <= there < |kids|
        decreases |kids| - k
      {
        k := k + 1;
      }
      ListedDrop(kids, s.tree[d], k);
      CatalogSet(lists, s.tree, d, kids[..k] + kids[k + 1..], s.tree[d] - {at});
      lists, s := lists[d := kids[..k] + kids[k + 1..]], s';
    }

    /** `fat_unlink` of the file at place `k`. */
    method RemoveFile(d: nat, k: nat)
      requires Valid() && IsFileNode(d, k)
      modifies this`lists, this`s, fat, fat.dev
      ensures Valid() && lists == old(lists)[d := Drop(old(lists)[d], old(lists)[d][k].at)]
      ensures s == Without(old(s), old(RefOf(d, k)))
      ensures Carried(fat.dev.g, old(fat.dev.sectors), old(s), fat.dev.sectors, s, {old(RefOf(d, k))},
        {old(RefOf(d, k))})
      ensures OfFile(old(RefOf(d, k))) in old(s).chains
      ensures FreeCount(fat.dev.fat) == FreeCount(old(fat.dev.fat)) + |old(s).chains[OfFile(old(RefOf(d, k)))]|
      ensures OnDevice() && FreedTo(old(Entries(d)), Entries(d), old(lists)[d][k].at, old(lists)[d][k].record.slots)
      ensures InStep(fat.dev.g, old(fat.dev.sectors), old(s), fat.dev.sectors, s, true)
      ensures old(fat.Exact()) ==> fat.Exact()
      ensures old(Whole()) ==> Whole()
      ensures SafeLog(fat.dev.g, old(s).tree.Keys, {}, old(fat.dev.log), fat.dev.log)
    {
      ghost var a, s0 := fat.dev.sectors, s;
      NodeAt(lists, s, d, k);
      var node := lists[d][k];
      ghost var r := Ref(d, node.at);
      UnlinkFile(fat, Ref(d, node.at), node.record, s, lost);
      FileCut(s, r);
      DropNode(d, node.at, Without(s, r));
      SameConnected(s0.tree, s.tree, s.root);
      InStepLess(fat.dev.g, a, s0, fat.dev.sectors, s, r, {r});
    }

    /** `fat_unlink` of the empty directory at place `k`. */
    method RemoveEmptyDir(d: nat, k: nat)
      requires Valid() && d in lists && k < |lists[d]| && lists[d][k].record.isDir
      requires lists[d][k].record.cluster in lists && lists[lists[d][k].record.cluster] == []
      modifies this`lists, this`s, fat, fat.dev
      ensures Valid()
      ensures lists == old(lists)[d := Drop(old(lists)[d], old(lists)[d][k].at)] - {old(lists)[d][k].record.cluster}
      ensures Has(old(s), old(RefOf(d, k))) && s == WithoutDir(old(s), old(RefOf(d, k))) && OnDevice()
      ensures OfDir(old(lists)[d][k].record.cluster) in old(s).chains
      ensures FreeCount(fat.dev.fat) ==
        FreeCount(old(fat.dev.fat)) + |old(s).chains[OfDir(old(lists)[d][k].record.cluster)]|
      ensures Carried(fat.dev.g, old(fat.dev.sectors), old(s), fat.dev.sectors, s, {old(RefOf(d, k))},
        {old(RefOf(d, k))})
      ensures InStep(fat.dev.g, old(fat.dev.sectors), old(s), fat.dev.sectors, s, true)
      ensures old(fat.Exact()) ==> fat.Exact()
      ensures old(Whole()) ==> Whole()
      ensures SafeLog(fat.dev.g, old(s).tree.Keys - {old(lists)[d][k].record.cluster}, {}, old(fat.dev.log),
        fat.dev.log)
    {
      ghost var a, s0 := fat.dev.sectors, s;
      NodeAt(lists, s, d, k);
      var node := lists[d][k];
      ghost var r, v := Ref(d, node.at), node.record.cluster;
      CatalogEmpty(lists, s.tree, v);
      assert Shape(fat.dev.g, s, {}) by {
        assert Moored(0);
      }
      DirCut(fat.dev.g, s, r);
      RemoveDir(fat, Ref(d, node.at), node.record, s, lost);
      DropNode(d, node.at, Dropped(s, r));
      CatalogGone(lists, s.tree, v);
      s := WithoutDir(s0, r);
      lists := lists - {node.record.cluster};
      InStepLess(fat.dev.g, a, s0, fat.dev.sectors, s, r, {r});
    }

    /** `fat_unlink`. A removed file's clusters are free again, and only those. */
    method Unlink(d: nat, name: seq<Byte>, wantDir: bool) returns (code: Code, ghost occupied: bool)
      requires Valid() && d in lists
      modifies this`lists, this`s, fat, fat.dev
      ensures Valid() && code == UnlinkCode(old(lists)[d], name, wantDir, occupied)
      ensures var k := FirstNamed(old(lists)[d], name);
        && (k >= 0 && old(lists)[d][k].record.isDir ==>
              var v := old(lists)[d][k].record.cluster; v in old(lists) && (occupied <==> old(lists)[v] != []))
        && (!code.Done? ==>
          lists == old(lists) && s == old(s) && fat.dev.sectors == old(fat.dev.sectors)
          && fat.dev.log == old(fat.dev.log))
        && (code.Done? && !wantDir ==> lists == old(lists)[d := Drop(old(lists)[d], old(lists)[d][k].at)])
        && (code.Done? && wantDir ==>
          lists == old(lists)[d := Drop(old(lists)[d], old(lists)[d][k].at)] - {old(lists)[d][k].record.cluster})
        && (code.Done? ==>
          Carried(fat.dev.g, old(fat.dev.sectors), old(s), fat.dev.sectors, s, {Ref(d, old(lists)[d][k].at)},
          {Ref(d, old(lists)[d][k].at)}))
        && (code.Done? ==>
              var r := Ref(d, old(lists)[d][k].at);
              var x := if wantDir then OfDir(old(lists)[d][k].record.cluster) else OfFile(r);
              && Has(old(s), r) && s == (if wantDir then WithoutDir(old(s), r) else Without(old(s), r))
              && x in old(s).chains && FreeCount(fat.dev.fat) == FreeCount(old(fat.dev.fat)) + |old(s).chains[x]|
                && OnDevice())
        && (code.Done? ==>
          SafeLog(fat.dev.g, old(s).tree.Keys - (if wantDir then {old(lists)[d][k].record.cluster} else {}), {},
          old(fat.dev.log), fat.dev.log))
      ensures InStep(fat.dev.g, old(fat.dev.sectors), old(s), fat.dev.sectors, s, true)
      ensures old(fat.Exact()) ==> fat.Exact()
      ensures old(Whole()) ==> Whole()
    {
      occupied := false;
      InStepRefl(fat.dev.g, fat.dev.sectors, s);
      var k := FindName(d, name);
      if k < 0 {
        return NoEntry, false;
      }
      var victim := lists[d][k];
      NodeAt(lists, s, d, k);
      if victim.record.isDir {
        assert victim.record.cluster in s.tree by {
          assert Moored(0);
          SubDir(fat.dev.g, s, lost, View(fat, [], false), Ref(d, victim.at));
        }
        ListOf(lists, s.tree, victim.record.cluster);
        occupied := lists[victim.record.cluster] != [];
      }
      if wantDir && !victim.record.isDir {
        return NotDir, occupied;
      }
      if !wantDir && victim.record.isDir {
        return IsDir, occupied;
      }
      if victim.record.isDir {
        if lists[victim.record.cluster] != [] {
          return NotEmpty, occupied;
        }
        RemoveEmptyDir(d, k);
      } else {
        assert old(s).tree.Keys - {} == old(s).tree.Keys;
        RemoveFile(d, k);
      }
      code := Done;
    }

    /** The moving of a node to another name, in its directory or another one, once nothing there has the name. */
    method Move(d: nat, moving: Node, d2: nat, name: seq<Byte>, stamp: Stamp)
      returns (ok: bool, node: Node, ghost long: bool, ghost landed: nat)
      requires Valid() && d in lists && d2 in lists && Has(s, Ref(d, moving.at))
      requires Rec(s, Ref(d, moving.at)) == moving.record && CName(name)
      modifies this`lists, this`s, fat, fat.dev
      ensures Valid() && long == Long(old(Entries(d2)), name)
      ensures ok ==>
        node.record == Renamed(moving.record, name, long) && lists == Relisted(old(lists), d, moving.at, d2, node)
      ensures !ok ==> lists == old(lists) && NoPlace(old(Entries(d2)), name, FreeCount(old(fat.dev.fat)))
      ensures var but := if ok then {Ref(d, moving.at), Ref(d2, node.at)} else {};
        Carried(fat.dev.g, old(fat.dev.sectors), old(s), fat.dev.sectors, s, but, but)
      ensures ok && !moving.record.isDir ==> Contents(Ref(d2, node.at)) == old(Contents(Ref(d, moving.at)))
      ensures InStep(fat.dev.g, old(fat.dev.sectors), old(s), fat.dev.sectors, s, ok ==> Kept(name, long))
      ensures (old(fat.Exact()) ==> fat.Exact()) && (ok ==> OnDevice())
      ensures old(Whole()) ==>
        (Whole() <==> !(ok && moving.record.isDir && Under(old(s).tree, moving.record.cluster, d2)))
      ensures SafeLog(fat.dev.g, old(s).tree.Keys, if ok && 2 <= moving.record.cluster then {Ref(d2, node.at)} else {},
        old(fat.dev.log), fat.dev.log)
      ensures ok && old(!fat.dev.dirty) && HasRoom(old(Entries(d2)), name) ==>
        (SafeLog(fat.dev.g, old(s).tree.Keys, {}, old(fat.dev.log), fat.dev.log) <==> moving.record.cluster < 2)
      ensures ok ==> |old(fat.dev.log)| <= landed < |fat.dev.log|
      ensures ok && fat.dev.log[landed].table == fat.dev.fat && 2 <= moving.record.cluster ==>
        !CrashSafe(fat.dev.g, old(s).tree.Keys, {}, fat.dev.log[landed])
      ensures ok && moving.record.isDir ==>
        ParentIs(fat.dev.g, fat.dev.sectors, s.chains, moving.record.cluster, if d2 == root then 0 else d2)
    {
      ghost var g, a, s0 := fat.dev.g, fat.dev.sectors, s;
      ghost var s';
      assert 2 <= d2 < WORD && Shape(g, s, {}) by {
        assert Moored(0);
        DirNumber(g, s, lost, View(fat, [], false), d2);
      }
      ok, node, long, landed, s' := MoveNode(fat, root, Ref(d, moving.at), moving.record, d2, name, stamp, s, lost);
      ghost var r, q := Ref(d, moving.at), Ref(d2, node.at);
      if ok {
        NodeMoved(g, s, r, q, node.record);
        Relist(d, moving.at, d2, node, s');
        InStepIf(g, a, s0, fat.dev.sectors, s, r, q, {r, q}, {r, q}, Kept(name, long));
      } else {
        s := s';
        InStepStill(g, a, s0, fat.dev.sectors, s);
      }
    }

    /** The node changes lists. */
    method Relist(d: nat, at: nat, d2: nat, node: Node, ghost s': State)
      requires Catalog(lists, s.tree) && d in lists && d2 in lists && Has(s, Ref(d, at)) && !Has(s, Ref(d2, node.at))
      requires s'.tree == Dropped(Noted(s, Ref(d2, node.at), node.record), Ref(d, at)).tree
      modifies this`lists, this`s
      ensures lists == Relisted(old(lists), d, at, d2, node) && s == s' && Catalog(lists, s.tree)
    {
      ghost var s1 := Dropped(s, Ref(d, at));
      EitherOrder(s, Ref(d, at), Ref(d2, node.at), node.record);
      DropNode(d, at, s1);
      ListNode(d2, node, s');
    }

    /** `fat_rename`, within one directory or between two: the node keeps its kind, its clusters and its length; a file
        in the way goes first, even if the new entries then find no room. */
    method Rename(d: nat, oldName: seq<Byte>, d2: nat, newName: seq<Byte>, stamp: Stamp)
      returns (code: Code, node: Node, ghost long: bool)
      requires Valid() && d in lists && d2 in lists && newName != [] && 0 !in newName
      modifies this`lists, this`s, fat, fat.dev
      ensures Valid()
      ensures var check := RenameCheck(old(lists)[d], oldName, old(lists)[d2], newName, d == d2);
        && (check.Some? ==> code == check.value && lists == old(lists) && s == old(s))
        && (check.Some? ==> fat.dev.sectors == old(fat.dev.sectors) && fat.dev.log == old(fat.dev.log))
        && (check.None? ==>
              var m, v := FirstNamed(old(lists)[d], oldName), FirstNamed(old(lists)[d2], newName);
              var moving, base, e :=
                old(lists)[d][m], old(lists)[d2 := Cleared(old(lists)[d2], newName)], old(Entries(d2));
              var but := Disturbed(old(lists), d, m, d2, v, code.Done?, node.at);
              var shown := if code.Done? && 2 <= moving.record.cluster then {Ref(d2, node.at)} else {};
              && (code.Done? || code.NoSpace?)
              && (code.NoSpace? ==> lists == base)
              && (code.NoSpace? ==>
                    NoPlace(Cleaned(e, old(lists)[d2], v), newName,
                      FreeCount(old(fat.dev.fat)) + GivenUp(old(lists), old(s), d2, v)))
              && (code.Done? ==>
                    && node.record == Renamed(moving.record, newName, long)
                    && lists == Relisted(base, d, moving.at, d2, node) && OnDevice())
              && (code.Done? && !moving.record.isDir ==>
                    Contents(Ref(d2, node.at)) == old(Contents(Ref(d, lists[d][FirstNamed(lists[d], oldName)].at))))
              && (code.Done? && moving.record.isDir ==>
                    ParentIs(fat.dev.g, fat.dev.sectors, s.chains, moving.record.cluster, if d2 == root then 0 else d2))
              && Carried(fat.dev.g, old(fat.dev.sectors), old(s), fat.dev.sectors, s, but, but)
              && SafeLog(fat.dev.g, old(s).tree.Keys, shown, old(fat.dev.log), fat.dev.log)
              && (code.Done? && Foreseen(old(fat.dev.dirty), e, old(lists)[d2], v, newName) ==>
                    (SafeLog(fat.dev.g, old(s).tree.Keys, {}, old(fat.dev.log), fat.dev.log) <==>
                      moving.record.cluster < 2))
              && (old(Whole()) ==>
                    (Whole() <==>
                      !(code.Done? && moving.record.isDir && Under(old(s).tree, moving.record.cluster, d2)))))
      ensures InStep(fat.dev.g, old(fat.dev.sectors), old(s), fat.dev.sectors, s,
        RenameCheck(old(lists)[d], oldName, old(lists)[d2], newName, d == d2).None? && code.Done? ==>
          Kept(newName, long))
      ensures old(fat.Exact()) ==> fat.Exact()
    {
      long, node := false, Node(0, Record(newName, false, 0, 0, 0));
      var check, m, v := Consider(d, oldName, d2, newName);
      if check.Some? {
        InStepRefl(fat.dev.g, fat.dev.sectors, s);
        return check.value, node, long;
      }
      code, node, long := Replace(d, m, d2, v, newName, stamp);
    }

    /** The tests a rename begins with. */
    method Consider(d: nat, oldName: seq<Byte>, d2: nat, newName: seq<Byte>)
      returns (check: Option<Code>, m: int, v: int)
      requires d in lists && d2 in lists
      ensures check == RenameCheck(lists[d], oldName, lists[d2], newName, d == d2)
      ensures check.None? ==>
        0 <= m == FirstNamed(lists[d], oldName) && v == FirstNamed(lists[d2], newName) && |newName| < NAME_MAX
      ensures check.None? && v >= 0 ==> !lists[d2][v].record.isDir && !(d == d2 && v == m)
    {
      v := -1;
      m := FindName(d, oldName);
      if m < 0 {
        return Some(NoEntry), m, v;
      }
      if |newName| >= NAME_MAX {
        return Some(NameTooLong), m, v;
      }
      v := FindName(d2, newName);
      if v >= 0 && d == d2 && v == m {
        return Some(Done), m, v;
      }
      if v >= 0 && lists[d2][v].record.isDir {
        return Some(IsDir), m, v;
      }
      check := None;
    }

    /** The file at place `v` of the new directory, if any, goes; the node that is to move stays what it was. */
    method ClearWay(d: nat, m: nat, d2: nat, v: int)
      requires Valid() && d in lists && d2 in lists && m < |lists[d]| && v < |lists[d2]|
      requires v >= 0 ==> !lists[d2][v].record.isDir && !(d == d2 && v == m)
      modifies this`lists, this`s, fat, fat.dev
      ensures Valid() && SameEntries(old(s).tree, s.tree)
      ensures lists == if v < 0 then old(lists) else old(lists)[d2 := Drop(old(lists)[d2], old(lists)[d2][v].at)]
      ensures var r := old(RefOf(d, m));
        && Has(s, r) && Rec(s, r) == old(lists)[d][m].record
        && (!Rec(s, r).isDir ==> Contents(r) == old(Contents(RefOf(d, m))))
      ensures var gone: set<Ref> := if v < 0 then {} else {Ref(d2, old(lists)[d2][v].at)};
        Carried(fat.dev.g, old(fat.dev.sectors), old(s), fat.dev.sectors, s, gone, gone)
      ensures Entries(d2) == Cleaned(old(Entries(d2)), old(lists)[d2], v)
      ensures FreeCount(fat.dev.fat) == FreeCount(old(fat.dev.fat)) + GivenUp(old(lists), old(s), d2, v)
      ensures InStep(fat.dev.g, old(fat.dev.sectors), old(s), fat.dev.sectors, s, true)
      ensures v >= 0 || old(!fat.dev.dirty) ==> !fat.dev.dirty
      ensures old(fat.Exact()) ==> fat.Exact()
      ensures SafeLog(fat.dev.g, old(s).tree.Keys, {}, old(fat.dev.log), fat.dev.log)
    {
      ghost var g, a, s0, r := fat.dev.g, View(fat, [], false), s, RefOf(d, m);
      NodeAt(lists, s, d, m);
      if v < 0 {
        SafeLogEmpty(g, s.tree.Keys, {}, a.log);
        InStepRefl(g, a.image, s);
        CarriedRefl(g, a.image, s, {}, {});
        return;
      }
      NodeAt(lists, s, d2, v);
      ListOf(lists, s.tree, d2);
      OwnPlace(lists[d2], s.tree[d2], v, if d == d2 then m else v);
      assert Stands(g, s, {}, lost, a) by {
        assert Moored(0);
      }
      FileCut(s, RefOf(d2, v));
      RemoveFile(d2, v);
      CleanedIs(old(Entries(d2)), Entries(d2), old(lists)[d2], v);
      StillThere(g, a.image, s0, fat.dev.sectors, s, old(RefOf(d2, v)), r, lost, a);
    }

    /** A rename that nothing forbids: the file at place `v` of the new directory, if any, is unlinked, then the
        node moves. */
    method Replace(d: nat, m: nat, d2: nat, v: int, newName: seq<Byte>, stamp: Stamp)
      returns (code: Code, node: Node, ghost long: bool)
      requires Valid() && d in lists && d2 in lists && m < |lists[d]| && v < |lists[d2]| && CName(newName)
      requires v >= 0 ==> !lists[d2][v].record.isDir && !(d == d2 && v == m)
      modifies this`lists, this`s, fat, fat.dev
      ensures Valid() && (code.Done? || code.NoSpace?)
      ensures var base := if v < 0 then old(lists) else old(lists)[d2 := Drop(old(lists)[d2], old(lists)[d2][v].at)];
        var moving := old(lists)[d][m];
        && (code.NoSpace? ==>
          lists == base
          && NoPlace(Cleaned(old(Entries(d2)), old(lists)[d2], v), newName,
          FreeCount(old(fat.dev.fat)) + GivenUp(old(lists), old(s), d2, v)))
        && (code.Done? ==>
          node.record == Renamed(moving.record, newName, long) && lists == Relisted(base, d, moving.at, d2, node))
        && (code.Done? && !moving.record.isDir ==> Contents(Ref(d2, node.at)) == old(Contents(Ref(d, moving.at))))
      ensures InStep(fat.dev.g, old(fat.dev.sectors), old(s), fat.dev.sectors, s, code.Done? ==> Kept(newName, long))
      ensures var but := Disturbed(old(lists), d, m, d2, v, code.Done?, node.at);
        Carried(fat.dev.g, old(fat.dev.sectors), old(s), fat.dev.sectors, s, but, but)
      ensures (old(fat.Exact()) ==> fat.Exact()) && (code.Done? ==> OnDevice())
      ensures old(Whole()) ==>
        (Whole() <==>
        !(code.Done? && old(lists)[d][m].record.isDir && Under(old(s).tree, old(lists)[d][m].record.cluster, d2)))
      ensures var moving := old(lists)[d][m].record;
        && SafeLog(fat.dev.g, old(s).tree.Keys, if code.Done? && 2 <= moving.cluster then {Ref(d2, node.at)} else {},
          old(fat.dev.log), fat.dev.log)
        && (code.Done? && Foreseen(old(fat.dev.dirty), old(Entries(d2)), old(lists)[d2], v, newName) ==>
              (SafeLog(fat.dev.g, old(s).tree.Keys, {}, old(fat.dev.log), fat.dev.log) <==> moving.cluster < 2))
      ensures code.Done? && old(lists)[d][m].record.isDir ==>
        ParentIs(fat.dev.g, fat.dev.sectors, s.chains, old(lists)[d][m].record.cluster, if d2 == root then 0 else d2)
    {
      ghost var g, a, s0 := fat.dev.g, View(fat, [], false), s;
      var moving := lists[d][m];
      ClearWay(d, m, d2, v);
      ghost var gone: set<Ref> := if v < 0 then {} else {Ref(d2, old(lists)[d2][v].at)};
      SameUnder(s0.tree, s.tree, moving.record.cluster);
      SameConnected(s0.tree, s.tree, s0.root);
      ghost var b, s1 := View(fat, [], false), s;
      var ok;
      ghost var landed;
      ok, node, long, landed := Move(d, moving, d2, newName, stamp);
      code := if ok then Done else NoSpace;
      ghost var q := Ref(d2, node.at);
      ghost var shown := if ok && 2 <= moving.record.cluster then {q} else {};
      SkipMore(g, s0.tree.Keys, a.log, b.log, shown);
      SafeLogTrans(g, s0.tree.Keys, shown, a.log, b.log, fat.dev.log);
      SafeLogAfter(g, s0.tree.Keys, a.log, b.log, fat.dev.log);
      InStepThen(g, a.image, s0, b.image, s1, fat.dev.sectors, s, ok ==> Kept(newName, long));
      ghost var but := Disturbed(old(lists), d, m, d2, v, ok, node.at);
      CarriedMore(g, a.image, s0, b.image, s1, gone, gone, but, but);
      CarriedMore(g, b.image, s1, fat.dev.sectors, s, if ok then {Ref(d, moving.at), q} else {},
        if ok then {Ref(d, moving.at), q} else {}, but, but);
      CarriedTrans(g, a.image, s0, b.image, s1, fat.dev.sectors, s, but, but);
    }

    /** Shrinking a file and growing it again: what was cut off does not come back, whatever the last cluster still
        held. */
    method ShrinkThenGrow(d: nat, k: nat, m: nat, n: nat, stamp: Stamp) returns (ok: bool)
      requires Valid() && IsFileNode(d, k) && m <= lists[d][k].record.length && m <= n
      requires n + fat.dev.g.ClusterBytes() + 512 < WORD
      modifies this`lists, this`s, fat, fat.dev
      ensures Valid() && m <= |old(Contents(RefOf(d, k)))|
      ensures ok ==> Contents(old(RefOf(d, k))) == old(Contents(RefOf(d, k)))[..m] + seq(n - m, _ => 0)
    {
      ContentsLength(d, k);
      ghost var r, b := RefOf(d, k), Contents(RefOf(d, k));
      ok := Truncate(d, k, m, stamp);
      assert IsFileNode(d, k) && RefOf(d, k) == r;
      ok := Truncate(d, k, n, stamp);
      ResizeTwice(b, m, n);
    }

    lemma ContentsLength(d: nat, k: nat)
      requires Valid() && IsFileNode(d, k)
      ensures |Contents(RefOf(d, k))| == lists[d][k].record.length
    {
      NodeAt(lists, s, d, k);
      assert Moored(0);
      FileFacts(fat.dev.g, s, {}, lost, View(fat, [], false), RefOf(d, k));
    }

    /** A run in which a gap does not read as zero: four bytes are written, the file is cut to one, and a byte
        is written past its end. The two bytes between are those the cut left behind. */
    method StaleGap(d: nat, k: nat, stamp: Stamp) returns (ok: bool)
      requires Valid() && IsFileNode(d, k) && lists[d][k].record.length == 0
      modifies this`lists, this`s, fat, fat.dev
      ensures Valid() && (old(FreeCount(fat.dev.fat)) > 0 ==> ok)
      ensures ok ==> Contents(old(RefOf(d, k))) == [1, 7, 7, 9]
    {
      ContentsLength(d, k);
      ghost var g, r := fat.dev.g, RefOf(d, k);
      SmallNeed(g, 4);
      SmallNeed(g, 1);
      ok := Write(d, k, 0, [1, 7, 7, 7], stamp);
      if !ok {
        return;
      }
      FirstWrite(old(Slack(RefOf(d, k))));
      assert IsFileNode(d, k) && RefOf(d, k) == r;
      ok := Truncate(d, k, 1, stamp);
      assert IsFileNode(d, k) && RefOf(d, k) == r;
      ghost var slack := Slack(r);
      ok := Write(d, k, 3, [9], stamp);
      LastWrite(slack);
    }
  }

  /** A run in which a directory's entry names a cluster the device calls free: the first directory of a fresh volume,
      whatever its name. */
  method FirstDir(fat: Fat, root: nat, name: seq<Byte>, stamp: Stamp) returns (fs: FileSystem, ok: bool, node: Node)
    requires fat.Valid() && fat.dev.g.InRange(root) && FAT_BAD <= fat.dev.fat[root]
    requires ZeroedCluster(fat.dev.g, fat.dev.sectors, root) && !fat.dev.dirty && CName(name)
    modifies fat, fat.dev
    ensures fresh(fs) && fs.Valid() && fs.fat == fat && fs.root == root && fs.Whole()
    ensures ok <==> old(FreeCount(fat.dev.fat)) > 0
    ensures ok ==> old(fat.dev.log) <= fat.dev.log && !SafeLog(fat.dev.g, {root}, {}, old(fat.dev.log), fat.dev.log)
    ensures ok ==> var v := node.record.cluster;
      && root in fs.lists && fs.lists[root] == [node] && v in fs.lists && fs.lists[v] == [] && v != root
      && node.record.name == name && node.record.isDir && 2 <= v
      && fs.OnDevice() && FreeCount(fat.dev.fat) + 1 == old(FreeCount(fat.dev.fat))
      && OfDir(v) in fs.s.chains && fs.s.chains[OfDir(v)] == [v] && FreshDir(fat.dev.g, fat.dev.sectors, v, 0)
  {
    fs := new FileSystem.Blank(fat, root);
    ghost var g, e := fat.dev.g, fs.Entries(root);
    ghost var long, landed;
    assert e == Blank(16 * g.spc) && fs.s.chains[OfDir(root)] == [root] by {
      ZeroedEntries(g, fat.dev.sectors, root);
    }
    BlankRoom(16 * g.spc, name);
    ok, node, long, landed := fs.Mkdir(root, name, stamp);
    if ok {
      FirstPlace(g, root, old(fat.dev.fat), old(fat.freeHint), node);
      assert [] + [node] == [node];
      FirstNumber(fat, fs.s, fs.lost, node.record.cluster);
    }
  }

  lemma FirstNumber(fat: Fat, s: State, lost: set<nat>, v: nat)
    requires Ready(fat, s, {}, lost) && v in s.tree
    ensures 2 <= v
  {
    assert Moored(0);
    DirNumber(fat.dev.g, s, lost, View(fat, [], false), v);
  }

  /** A rename of the only node of a directory into an empty one is not refused. */
  lemma LoneCheck(node: Node, newName: seq<Byte>)
    requires |newName| < NAME_MAX
    ensures RenameCheck([node], node.record.name, [], newName, false).None?
    ensures FirstNamed([node], node.record.name) == 0 && FirstNamed([], newName) == -1
  {
  }

  /** A run after which a directory cannot be reached any more: it is renamed into itself. And as every rename of a node
      with clusters, that shows two entries on one chain for a while; `before` is what was logged up to there. */
  method LostDir(fat: Fat, root: nat, stamp: Stamp)
    returns (fs: FileSystem, ok: bool, ghost before: seq<Moment>, ghost dirs: set<nat>)
    requires fat.Valid() && fat.dev.g.InRange(root) && FAT_BAD <= fat.dev.fat[root]
    requires ZeroedCluster(fat.dev.g, fat.dev.sectors, root) && !fat.dev.dirty
    modifies fat, fat.dev
    ensures fs.Valid() && (old(FreeCount(fat.dev.fat)) >= 2 ==> ok) && (ok ==> !fs.Whole())
    ensures ok ==> before <= fat.dev.log && !SafeLog(fat.dev.g, dirs, {}, before, fat.dev.log)
  {
    var node, code, moved;
    ghost var long;
    fs, ok, node := FirstDir(fat, root, [97], stamp);
    before, dirs := fat.dev.log, fs.s.tree.Keys;
    if !ok {
      return;
    }
    var v := node.record.cluster;
    ghost var inside := fs.Entries(v);
    FewEntries(fat, fs.s, fs.lost, v);
    FreshRoom(fat.dev.g, fat.dev.sectors, v, 0, [98]);
    NoUses(inside, [98]);
    UnderSelf(fs.s.tree, v);
    LoneCheck(node, [98]);
    code, moved, long := fs.Rename(root, [97], v, [98], stamp);
    ok := code.Done?;
  }

  /** A directory of one cluster has too few entries to use up the generated names. */
  lemma FewEntries(fat: Fat, s: State, lost: set<nat>, d: nat)
    requires Ready(fat, s, {}, lost) && d in s.tree && OfDir(d) in s.chains && |s.chains[OfDir(d)]| == 1
    ensures |DirEntries(fat.dev.g, fat.dev.sectors, s.chains, d)| <= 2048
  {
    assert Moored(0);
    DirFacts(fat.dev.g, s, {}, lost, View(fat, [], false), d);
    assert Span(1, 16 * fat.dev.g.spc) == Span(0, 16 * fat.dev.g.spc) + 16 * fat.dev.g.spc;
  }

  lemma FreshRoom(g: Geometry, im: Image, c: nat, up: nat, name: seq<Byte>)
    requires FreshDir(g, im, c, up) && |name| < NAME_MAX
    ensures HasRoom(EntriesOf(g, im, [c]), name)
  {
    assert Settling(0);
    var e, n := EntriesOf(g, im, [c]), SlotsOf(name, Long(EntriesOf(g, im, [c]), name));
    assert Span(1, 16 * g.spc) == Span(0, 16 * g.spc) + 16 * g.spc;
    FewSlots(name, Long(e, name));
    assert FreeRun(e, 2, n);
  }

  lemma NoUses(e: Layout.Entries, name: seq<Byte>)
    requires |e| < LAST_TRY
    ensures forall free: nat :: NoPlace(e, name, free) ==> free == 0
  {
    assert Sought(0);
    FewUses(e, |e|);
  }

  lemma {:induction false} FewUses(e: Layout.Entries, n: nat)
    requires n <= |e|
    ensures |set p: nat | p < n && InUse(e, p)| <= n
  {
    var all := set p: nat | p < n && InUse(e, p);
    if n > 0 {
      FewUses(e, n - 1);
      var less := set p: nat | p < n - 1 && InUse(e, p);
      assert all <= less + {n - 1};
      SubsetCard(all, less + {n - 1});
    }
  }

  lemma BlankRoom(n: nat, name: seq<Byte>)
    requires 11 <= n && |name| < NAME_MAX
    ensures HasRoom(Blank(n), name) && forall free: nat :: NoPlace(Blank(n), name, free) ==> free == 0
  {
    var e := Blank(n);
    assert !NoRun(e, SlotsOf(name, Long(e, name))) by {
      FewSlots(name, Long(e, name));
      assert FreeRun(e, 0, SlotsOf(name, Long(e, name)));
    }
    LiveEndIs(e, 0);
    assert Uses(e) == {};
    assert Sought(0);
  }

  lemma FirstPlace(g: Geometry, root: nat, t: Table, hint: nat, node: Node)
    requires g.Valid() && node.record.slots == SlotsOf(node.record.name, Long(Blank(16 * g.spc), node.record.name))
    requires Foretold(Blank(16 * g.spc), t, hint, node)
    ensures OneSector(g, [root], node.at, node.record.cluster)
  {
    assert Roomy(0);
    assert node.at / 16 < g.spc;
  }

  /** A small file needs one cluster. */
  lemma SmallNeed(g: Geometry, n: nat)
    requires g.Valid() && 0 < n <= 512
    ensures Need(g, n) == 1 && g.ClusterBytes() <= 65536
  {
    assert (n - 1) / 512 == 0;
  }

  lemma FirstWrite(slack: seq<Byte>)
    ensures Written([], slack, 0, [1, 7, 7, 7]) == [1, 7, 7, 7]
    ensures Resized([1, 7, 7, 7], 1) == [1] && CutOff([1, 7, 7, 7], 1) == [7, 7, 7]
  {
  }

  lemma LastWrite(slack: seq<Byte>)
    requires [7, 7, 7] <= slack
    ensures Written([1], slack, 3, [9]) == [1, 7, 7, 9]
  {
    assert slack[..2] == [7, 7, 7][..2] == [7, 7];
  }

  ghost function BlankState(root: nat): State {
    State(root, map[root := map[]], map[OfDir(root) := [root], Spare := []])
  }

  lemma BlankCatalog(root: nat)
    ensures Catalog(map[root := []], BlankState(root).tree)
  {
    ListedIs([], map[]);
  }

  /** A volume with nothing but a zeroed root directory satisfies the invariant. */
  lemma BlankStands(g: Geometry, a: Snap, root: nat, lost: set<nat>)
    requires Sound(g, a) && g.InRange(root) && FAT_BAD <= a.table[root] && ZeroedCluster(g, a.image, root)
    requires a.disk == a.table
    requires lost == set c: nat | 2 <= c < |a.table| && c != root && a.table[c] != 0
    ensures Stands(g, BlankState(root), {}, lost, a)
  {
    var s := BlankState(root);
    assert IsChain(a.table, [root]);
    assert Forest(a.table, s.chains);
    assert Accounts(a.table, s.chains, lost) by {
      assert forall c :: Owned(s.chains, c) <==> c == root by {
        assert OfDir(root) in s.chains && root in s.chains[OfDir(root)];
      }
    }
    assert Shape(g, s, {});
    ZeroedEntries(g, a.image, root);
    BlankKept(16 * g.spc);
    assert Entered(g, a.image, s, {});
    SettledSafe(g, s, {}, a.table, a.image);
  }

  /** Conservation: on a mounted volume free clusters, lost ones and the lengths of all chains add up. */
  lemma Conservation(fat: Fat, s: State, lost: set<nat>)
    requires Ready(fat, s, {}, lost) && forall c :: c in lost ==> fat.dev.g.InRange(c)
    ensures FreeCount(fat.dev.fat) + |lost| + Total(s.chains) == fat.dev.g.totalClusters
  {
    assert Moored(0);
    Conserved(fat.dev.fat, s.chains, lost);
  }

  /** The list a node leaves and the list it comes to. */
  ghost function Relisted(lists: Lists, d: nat, at: nat, d2: nat, node: Node): Lists
    requires d in lists && d2 in lists
  {
    var left := lists[d := Drop(lists[d], at)];
    left[d2 := left[d2] + [node]]
  }

  lemma EitherOrder(s: State, r: Ref, q: Ref, rec: Record)
    requires Has(s, r) && q.dir in s.tree && !Has(s, q)
    ensures Noted(Dropped(s, r), q, rec).tree == Dropped(Noted(s, q, rec), r).tree
  {
    if r.dir == q.dir {
      var c := s.tree[r.dir];
      assert (c - {r.at})[q.at := rec] == c[q.at := rec] - {r.at};
    }
  }

  /** The nodes a rename touches: the one in the way, and the one that moves, before and after. */
  ghost function Disturbed(lists: Lists, d: nat, m: nat, d2: nat, v: int, moved: bool, at: nat): set<Ref>
    requires d in lists && d2 in lists && m < |lists[d]| && v < |lists[d2]|
  {
    (if v < 0 then {} else {Ref(d2, lists[d2][v].at)}) + (if moved then {Ref(d, lists[d][m].at), Ref(d2, at)} else {})
  }

  /** The entries of the new directory once the file in the way, if there is one, is gone. */
  ghost function Cleaned(e: Layout.Entries, kids: seq<Node>, v: int): Layout.Entries
    requires v < |kids|
  {
    if v < 0 then e else Vacating(e, kids[v].at, kids[v].record.slots)
  }

  /** How many clusters that file had. */
  ghost function GivenUp(lists: Lists, s: State, d: nat, v: int): nat
    requires d in lists && v < |lists[d]|
  {
    if v >= 0 && OfFile(Ref(d, lists[d][v].at)) in s.chains then |s.chains[OfFile(Ref(d, lists[d][v].at))]| else 0
  }

  /** When what a rename shows on its way is known beforehand: nothing is left to be written when the node
      moves, and the new directory has room. */
  ghost predicate Foreseen(dirty: bool, e: Layout.Entries, kids: seq<Node>, v: int, name: seq<Byte>)
    requires v < |kids|
  {
    (v >= 0 || !dirty) && HasRoom(Cleaned(e, kids, v), name)
  }

  lemma CleanedIs(e: Layout.Entries, h: Layout.Entries, kids: seq<Node>, v: int)
    requires 0 <= v < |kids| && FreedTo(e, h, kids[v].at, kids[v].record.slots)
    ensures h == Cleaned(e, kids, v)
  {
    assert Blotted(0);
  }

  /** Two places of a list are two nodes. */
  lemma OwnPlace(kids: seq<Node>, c: Index, v: nat, m: nat)
    requires Listed(kids, c) && v < |kids| && m < |kids|
    ensures kids[v].at == kids[m].at <==> v == m
  {
    ListedIs(kids, c);
  }

  /** A node that is not the one removed is where it was, with the bytes it had. */
  lemma StillThere(g: Geometry, a: Image, s: State, b: Image, s': State, gone: Ref, r: Ref, lost: set<nat>, x: Snap)
    requires Sized(g, a, b)
    requires Carried(g, a, s, b, s', {gone}, {gone}) && r != gone && Has(s, r) && Stands(g, s, {}, lost, x)
    ensures Has(s', r) && Rec(s', r) == Rec(s, r)
    ensures !Rec(s, r).isDir ==> BytesOf(g, b, s', r) == BytesOf(g, a, s, r)
  {
    NodeCarried(g, a, s, b, s', {gone}, {gone}, r);
    if !Rec(s, r).isDir {
      FileFacts(g, s, {}, lost, x, r);
      BytesCarried(g, a, s, b, s', {gone}, {gone}, r);
    }
  }

  /** Directory `d` has not grown. */
  ghost predicate SameChain(s: State, s': State, d: nat) {
    OfDir(d) in s.chains && OfDir(d) in s'.chains && s'.chains[OfDir(d)] == s.chains[OfDir(d)]
  }

  /** One node came, or moved from `r` to `q`: the volume is in step exactly if it reads back. */
  lemma InStepIf(g: Geometry, a: Image, s: State, b: Image, s': State, r: Ref, q: Ref, but: set<Ref>, moved: set<Ref>,
      kept: bool)
    requires Sized(g, a, b)
    requires Carried(g, a, s, b, s', but, moved) && but <= {r, q} && (r == q || !Has(s', r)) && q in but && Has(s', q)
    requires ReadsBack(g, b, s', q) <==> kept
    ensures InStep(g, a, s, b, s', kept)
  {
    if Synced(g, a, s) {
      SyncedCarried(g, a, s, b, s', but, moved);
    }
  }

  lemma InStepStill(g: Geometry, a: Image, s: State, b: Image, s': State)
    requires Sized(g, a, b) && Carried(g, a, s, b, s', {}, {})
    ensures InStep(g, a, s, b, s', true)
  {
    if Synced(g, a, s) {
      SyncedCarried(g, a, s, b, s', {}, {});
    }
  }

  lemma InStepLess(g: Geometry, a: Image, s: State, b: Image, s': State, r: Ref, moved: set<Ref>)
    requires Sized(g, a, b) && Carried(g, a, s, b, s', {r}, moved) && !Has(s', r)
    ensures InStep(g, a, s, b, s', true)
  {
    if Synced(g, a, s) {
      SyncedCarried(g, a, s, b, s', {r}, moved);
    }
  }

  lemma InStepRefl(g: Geometry, a: Image, s: State)
    requires g.Valid() && Fits(g, a)
    ensures InStep(g, a, s, a, s, true)
  {
  }

  lemma InStepThen(g: Geometry, a: Image, s: State, b: Image, s': State, c: Image, s'': State, kept: bool)
    requires Sized(g, a, b) && Fits(g, c) && InStep(g, a, s, b, s', true) && InStep(g, b, s', c, s'', kept)
    ensures InStep(g, a, s, c, s'', kept)
  {
    assert Paced(0);
  }

  /** A node that read back still does, so a volume in step stays in step. */
  lemma OneReadsBack(g: Geometry, a: Image, s: State, b: Image, s': State, r: Ref)
    requires Sized(g, a, b)
    requires Carried(g, a, s, b, s', {r}, {r}) && Has(s, r) && Has(s', r)
    requires ReadsBack(g, a, s, r) ==> ReadsBack(g, b, s', r)
    ensures InStep(g, a, s, b, s', true)
  {
    if Synced(g, a, s) {
      SyncedCarried(g, a, s, b, s', {r}, {r});
      assert ReadsBack(g, a, s, r) by {
        assert Mirrored(0);
      }
    }
  }
}
