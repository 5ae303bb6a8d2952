/** The list of nodes under a directory (kernel/ramfs.c:155-176, kernel/fat32.c:731-737). */
module NodeList {
  import opened Bytes
  import opened LongNames
  import opened Edits

  /** A node and the index of its short entry. */
  datatype Node = Node(at: nat, record: Record)

  ghost predicate OwnPlaces(kids: seq<Node>) {
    forall i, j :: 0 <= i < j < |kids| ==> kids[i].at != kids[j].at
  }

  /** The nodes by the index of their short entry. */
  ghost function IndexOf(kids: seq<Node>): Index {
    if kids == [] then map[]
    else IndexOf(kids[..|kids| - 1])[kids[|kids| - 1].at := kids[|kids| - 1].record]
  }

  lemma {:induction false} IndexHas(kids: seq<Node>, k: nat)
    requires OwnPlaces(kids) && k < |kids|
    ensures kids[k].at in IndexOf(kids) && IndexOf(kids)[kids[k].at] == kids[k].record
  {
    if k < |kids| - 1 {
      IndexHas(kids[..|kids| - 1], k);
    }
  }

  lemma {:induction false} IndexHasNode(kids: seq<Node>, at: nat) returns (k: nat)
    requires at in IndexOf(kids)
    ensures k < |kids| && kids[k].at == at && kids[k] in kids
  {
    if kids[|kids| - 1].at == at {
      k := |kids| - 1;
    } else {
      k := IndexHasNode(kids[..|kids| - 1], at);
    }
  }

  lemma IndexMember(kids: seq<Node>, n: Node)
    requires OwnPlaces(kids) && n in kids
    ensures n.at in IndexOf(kids) && IndexOf(kids)[n.at] == n.record
  {
    var k :| 0 <= k < |kids| && kids[k] == n;
    IndexHas(kids, k);
  }

  lemma IndexEntries(kids: seq<Node>)
    requires OwnPlaces(kids)
    ensures forall n :: n in kids ==> n.at in IndexOf(kids) && IndexOf(kids)[n.at] == n.record
  {
    forall n | n in kids ensures n.at in IndexOf(kids) && IndexOf(kids)[n.at] == n.record {
      IndexMember(kids, n);
    }
  }

  /** A map that agrees with the list node by node is its index. */
  lemma IndexIs(kids: seq<Node>, c: Index)
    requires OwnPlaces(kids) && forall n :: n in kids ==> n.at in c && c[n.at] == n.record
    requires forall at :: at in c ==> exists k :: 0 <= k < |kids| && kids[k].at == at
    ensures IndexOf(kids) == c
  {
    IndexEntries(kids);
    forall at | at in c ensures at in IndexOf(kids) && IndexOf(kids)[at] == c[at] {
      var k :| 0 <= k < |kids| && kids[k].at == at;
      assert kids[k] in kids;
    }
    forall at | at in IndexOf(kids) ensures at in c {
      var k := IndexHasNode(kids, at);
      assert kids[k] in kids;
    }
  }

  /** The list without the node at `at`. */
  ghost function Drop(kids: seq<Node>, at: nat): seq<Node> {
    if kids == [] then []
    else if kids[0].at == at then kids[1..]
    else [kids[0]] + Drop(kids[1..], at)
  }

  lemma {:induction false} DropIs(kids: seq<Node>, k: nat)
    requires OwnPlaces(kids) && k < |kids|
    ensures Drop(kids, kids[k].at) == kids[..k] + kids[k + 1..]
  {
    if k > 0 {
      var rest := kids[1..];
      assert kids[0].at != kids[k].at && rest[k - 1] == kids[k];
      DropIs(rest, k - 1);
      assert kids[..k] == [kids[0]] + rest[..k - 1] && kids[k + 1..] == rest[k..];
    }
  }

  lemma IndexDrop(kids: seq<Node>, k: nat)
    requires OwnPlaces(kids) && k < |kids|
    ensures var rest := kids[..k] + kids[k + 1..];
      OwnPlaces(rest) && IndexOf(rest) == IndexOf(kids) - {kids[k].at}
  {
    var rest := kids[..k] + kids[k + 1..];
    assert forall i :: 0 <= i < |rest| ==> rest[i] == kids[if i < k then i else i + 1];
    IndexEntries(kids);
    assert OwnPlaces(rest) && forall n :: n in rest ==> n in kids && n.at != kids[k].at;
    forall at | at in IndexOf(kids) - {kids[k].at} ensures exists i :: 0 <= i < |rest| && rest[i].at == at {
      var i := IndexHasNode(kids, at);
      assert rest[if i < k then i else i - 1].at == at;
    }
    IndexIs(rest, IndexOf(kids) - {kids[k].at});
  }

  lemma IndexAppend(kids: seq<Node>, n: Node)
    requires OwnPlaces(kids) && n.at !in IndexOf(kids)
    ensures OwnPlaces(kids + [n]) && IndexOf(kids + [n]) == IndexOf(kids)[n.at := n.record]
  {
    forall i | 0 <= i < |kids| ensures kids[i].at != n.at {
      IndexHas(kids, i);
    }
    assert (kids + [n])[..|kids|] == kids;
  }

  lemma IndexReplace(kids: seq<Node>, k: nat, rec: Record)
    requires OwnPlaces(kids) && k < |kids|
    ensures var after := kids[k := Node(kids[k].at, rec)];
      OwnPlaces(after) && IndexOf(after) == IndexOf(kids)[kids[k].at := rec]
  {
    var after, c := kids[k := Node(kids[k].at, rec)], IndexOf(kids)[kids[k].at := rec];
    assert forall i :: 0 <= i < |kids| ==> after[i].at == kids[i].at;
    forall i | 0 <= i < |after| ensures after[i].at in c && c[after[i].at] == after[i].record {
      IndexHas(kids, i);
      assert i != k ==> kids[i].at != kids[k].at;
    }
    forall at | at in c ensures exists i :: 0 <= i < |after| && after[i].at == at {
      if at != kids[k].at {
        var i := IndexHasNode(kids, at);
        assert after[i].at == at;
      } else {
        assert after[k].at == at;
      }
    }
    IndexIs(after, c);
  }

  /** The place of the first node called `name`, or -1. */
  function FirstNamed(kids: seq<Node>, name: seq<Byte>): (k: int)
    ensures -1 <= k < |kids|
    ensures k >= 0 ==> kids[k].record.name == name && forall j :: 0 <= j < k ==> kids[j].record.name != name
    ensures k < 0 ==> forall n :: n in kids ==> n.record.name != name
  {
    if kids == [] then -1
    else if kids[0].record.name == name then 0
    else
      var k := FirstNamed(kids[1..], name);
      if k < 0 then -1 else k + 1
  }

  ghost predicate Ranked(n: int) { true }

  /** `c` is the index of the list, whose nodes have places of their own; folded behind `Ranked`. */
  ghost predicate Listed(kids: seq<Node>, c: Index) {
    forall n: int :: Ranked(n) ==> OwnPlaces(kids) && IndexOf(kids) == c
  }

  lemma ListedSame(kids: seq<Node>, c: Index, c': Index)
    requires Listed(kids, c) && Listed(kids, c')
    ensures c == c'
  {
    ListedIs(kids, c);
    ListedIs(kids, c');
  }

  lemma ListedIs(kids: seq<Node>, c: Index)
    ensures Listed(kids, c) <==> OwnPlaces(kids) && IndexOf(kids) == c
  {
    assert Ranked(0);
  }

  lemma ListedHas(kids: seq<Node>, c: Index, n: Node)
    requires Listed(kids, c) && n in kids
    ensures n.at in c && c[n.at] == n.record
  {
    ListedIs(kids, c);
    IndexMember(kids, n);
  }

  lemma ListedAt(kids: seq<Node>, c: Index, at: nat) returns (k: nat)
    requires Listed(kids, c) && at in c
    ensures k < |kids| && kids[k].at == at
  {
    ListedIs(kids, c);
    k := IndexHasNode(kids, at);
  }

  lemma ListedAppend(kids: seq<Node>, c: Index, n: Node)
    requires Listed(kids, c) && n.at !in c
    ensures Listed(kids + [n], c[n.at := n.record])
  {
    ListedIs(kids, c);
    IndexAppend(kids, n);
    ListedIs(kids + [n], c[n.at := n.record]);
  }

  lemma ListedDrop(kids: seq<Node>, c: Index, k: nat)
    requires Listed(kids, c) && k < |kids|
    ensures Drop(kids, kids[k].at) == kids[..k] + kids[k + 1..]
    ensures Listed(kids[..k] + kids[k + 1..], c - {kids[k].at})
  {
    ListedIs(kids, c);
    DropIs(kids, k);
    IndexDrop(kids, k);
    ListedIs(kids[..k] + kids[k + 1..], c - {kids[k].at});
  }

  lemma ListedReplace(kids: seq<Node>, c: Index, k: nat, rec: Record)
    requires Listed(kids, c) && k < |kids|
    ensures Listed(kids[k := Node(kids[k].at, rec)], c[kids[k].at := rec])
  {
    ListedIs(kids, c);
    IndexReplace(kids, k, rec);
    ListedIs(kids[k := Node(kids[k].at, rec)], c[kids[k].at := rec]);
  }
}
