/** Directory entries: the long-name fragments that `dir_write_entries` emits, and the scan of
    `populate` that reads a directory back into nodes (kernel/fat32.c:404-415, kernel/fat32.c:478-491,
    kernel/fat32.c:603-722, kernel/fat32.c:1013-1075). */
module LongNames {
  import opened Bytes
  import opened Names

  const NAME_MAX: nat := 128      // VFS_NAME_MAX
  const ATTR_LFN: Byte := 0x0F
  const ATTR_DIRECTORY: Byte := 0x10
  const ATTR_ARCHIVE: Byte := 0x20
  const QUESTION: Byte := 63

  type DirEntry = e: seq<Byte> | |e| == 32 witness seq(32, _ => 0)

  /** The checksum over a short name that its long-name fragments carry. */
  function ChecksumFrom(sum: Byte, s: seq<Byte>): Byte
    decreases |s|
  {
    if s == [] then sum
    else ChecksumFrom(((if sum % 2 == 1 then 0x80 else 0) + sum / 2 + s[0]) % 256, s[1..])
  }

  function Checksum(short: seq<Byte>): Byte {
    ChecksumFrom(0, short)
  }

  /** How many fragments a name of `len` characters needs. */
  function SlotsFor(len: nat): nat {
    (len + 12) / 13
  }

  /** Where character `k` of a fragment lies in its entry: five at 1, six at 14, two at 28. */
  function LfnOffset(k: nat): (o: nat)
    requires k < 13
    ensures o + 2 <= 32
  {
    if k < 5 then 1 + 2 * k else if k < 11 then 14 + 2 * (k - 5) else 28 + 2 * (k - 11)
  }

  /** The 16-bit unit stored for position `i` of `name`: the character, a terminator, or padding. */
  function LfnChar(name: seq<Byte>, i: nat): (ch: nat)
    ensures ch < 0x1_0000
  {
    if i < |name| then name[i] else if i == |name| then 0 else 0xFFFF
  }

  /** Fragment `ord` of `name`, every byte of it; `last` marks the one that is written first. */
  ghost predicate IsFragment(ent: DirEntry, name: seq<Byte>, ord: nat, last: bool, sum: Byte)
    requires 0 < ord
  {
    && ent[0] == ord + (if last then 0x40 else 0)
    && ent[11] == ATTR_LFN && ent[12] == 0 && ent[13] == sum && ent[26] == 0 && ent[27] == 0
    && forall k :: 0 <= k < 13 ==> Rd16(ent, LfnOffset(k)) == LfnChar(name, (ord - 1) * 13 + k)
  }

  method MakeFragment(name: seq<Byte>, ord: nat, last: bool, sum: Byte) returns (ent: DirEntry)
    requires 0 < ord < 0x40
    ensures IsFragment(ent, name, ord, last, sum)
  {
    var e: seq<Byte> := seq(32, _ => 0);
    e := e[0 := ord + (if last then 0x40 else 0)][11 := ATTR_LFN][13 := sum];
    for k := 0 to 13
      invariant |e| == 32
      invariant e[0] == ord + (if last then 0x40 else 0)
      invariant e[11] == ATTR_LFN && e[12] == 0 && e[13] == sum && e[26] == 0 && e[27] == 0
      invariant forall j :: 0 <= j < k ==> Rd16(e, LfnOffset(j)) == LfnChar(name, (ord - 1) * 13 + j)
    {
      e := Wr16(e, LfnOffset(k), LfnChar(name, (ord - 1) * 13 + k));
    }
    ent := e;
  }

  /** What the scan has gathered of a long name: nothing, or `count` fragments announced, of which some
      have been copied into `buf`. */
  datatype Scan = Idle | Pending(count: nat, len: nat, sum: Byte, buf: seq<Byte>)

  ghost predicate ScanOk(s: Scan) {
    s.Pending? ==> |s.buf| == NAME_MAX
  }

  /** Copies the characters of one fragment, from `k` on, to positions `base + k` on. */
  function Fill(s: Scan, ent: DirEntry, base: nat, k: nat): (r: Scan)
    requires s.Pending? && |s.buf| == NAME_MAX && k <= 13
    ensures r.Pending? && |r.buf| == NAME_MAX && r.count == s.count && r.sum == s.sum
    decreases 13 - k
  {
    if k == 13 then s
    else
      var ch := Rd16(ent, LfnOffset(k));
      if ch == 0 || ch == 0xFFFF then
        if base + k < s.len then s.(len := base + k) else s
      else if base + k < NAME_MAX - 1 then
        Fill(s.(buf := s.buf[base + k := if ch < 0x80 then ch else QUESTION]), ent, base, k + 1)
      else
        Fill(s, ent, base, k + 1)
  }

  /** The scan at a long-name entry. */
  function OnFragment(s: Scan, ent: DirEntry): (r: Scan)
    requires ScanOk(s)
    ensures ScanOk(r)
  {
    var ord := ent[0] % 0x40;
    var starts := ent[0] / 0x40 % 2 == 1;
    if starts && (ord == 0 || ord > 20) then Idle
    else
      var t := if starts then Pending(ord, ord * 13, ent[13], seq(NAME_MAX, _ => 0)) else s;
      if t.Idle? || ord == 0 || ord > t.count || ent[13] != t.sum then Idle
      else Fill(t, ent, (ord - 1) * 13, 0)
  }

  /** A C string: the bytes before the first zero. */
  function CString(s: seq<Byte>): (r: seq<Byte>)
    ensures r <= s && 0 !in r
  {
    if s == [] || s[0] == 0 then [] else [s[0]] + CString(s[1..])
  }

  lemma {:induction false} CStringWhole(s: seq<Byte>)
    requires 0 !in s
    ensures CString(s) == s
  {
    if s != [] {
      assert s[0] in s;
      CStringWhole(s[1..]);
    }
  }

  predicate UsesLong(s: Scan, ent: DirEntry) {
    s.Pending? && s.len < NAME_MAX && Checksum(ent[..11]) == s.sum
  }

  /** The name a short entry gets after the fragments gathered in `s`. */
  function EntryName(s: Scan, ent: DirEntry): seq<Byte>
    requires ScanOk(s)
  {
    if UsesLong(s, ent) then CString(s.buf[..s.len]) else CString(NameOf(ent[..11], ent[12]))
  }

  /** What a node remembers of its entry. */
  datatype Record = Record(name: seq<Byte>, isDir: bool, length: nat, cluster: nat, slots: nat)

  function ClusterOf(ent: DirEntry): nat {
    Rd16(ent, 20) * 0x1_0000 + Rd16(ent, 26)
  }

  function RecordOf(s: Scan, ent: DirEntry): Record
    requires ScanOk(s)
  {
    var isDir := ent[11] / 0x10 % 2 == 1;
    Record(EntryName(s, ent), isDir, if isDir then 0 else Rd32(ent, 28), ClusterOf(ent),
           if UsesLong(s, ent) then s.count + 1 else 1)
  }

  predicate Nameless(name: seq<Byte>) {
    name == [] || name == [DOT] || name == [DOT, DOT]
  }

  predicate IsFragmentEntry(ent: DirEntry) {
    ent[11] % 16 == 15
  }

  predicate IsLabel(ent: DirEntry) {
    ent[11] / 8 % 2 == 1
  }

  /** The scan over a directory: the fragments pending and the nodes made so far, each under the index
      of its short entry. */
  datatype Reader = Reader(scan: Scan, found: map<nat, Record>)

  /** One turn of the loop in `populate`, at an entry that is not the end marker. */
  function Step(r: Reader, i: nat, ent: DirEntry): (q: Reader)
    requires ScanOk(r.scan)
    ensures ScanOk(q.scan)
  {
    if ent[0] == ENTRY_FREE then r.(scan := Idle)
    else if IsFragmentEntry(ent) then r.(scan := OnFragment(r.scan, ent))
    else if IsLabel(ent) then r.(scan := Idle)
    else if Nameless(EntryName(r.scan, ent)) then r.(scan := Idle)
    else Reader(Idle, r.found[i := RecordOf(r.scan, ent)])
  }

  /** The characters of one long-name entry. */
  method FillFragment(s: Scan, ent: DirEntry, base: nat) returns (r: Scan)
    requires s.Pending? && |s.buf| == NAME_MAX
    ensures r == Fill(s, ent, base, 0)
  {
    r := s;
    var k := 0;
    while k < 13
      invariant 0 <= k <= 13 && r.Pending? && |r.buf| == NAME_MAX
      invariant Fill(s, ent, base, 0) == Fill(r, ent, base, k)
    {
      var ch := Rd16(ent, LfnOffset(k));
      if ch == 0 || ch == 0xFFFF {
        if base + k < r.len {
          r := r.(len := base + k);
        }
        return;
      }
      if base + k < NAME_MAX - 1 {
        r := r.(buf := r.buf[base + k := if ch < 0x80 then ch else QUESTION]);
      }
      k := k + 1;
    }
  }

  /** The body of the loop in `populate`, at an entry that is not the end marker. */
  method TakeEntry(r: Reader, i: nat, ent: DirEntry) returns (q: Reader)
    requires ScanOk(r.scan)
    ensures q == Step(r, i, ent)
  {
    if ent[0] == ENTRY_FREE {
      return r.(scan := Idle);
    }
    if IsFragmentEntry(ent) {
      var ord := ent[0] % 0x40;
      var s := r.scan;
      if ent[0] / 0x40 % 2 == 1 {
        if ord == 0 || ord > 20 {
          return r.(scan := Idle);
        }
        s := Pending(ord, ord * 13, ent[13], seq(NAME_MAX, _ => 0));
      }
      if s.Idle? || ord == 0 || ord > s.count || ent[13] != s.sum {
        return r.(scan := Idle);
      }
      s := FillFragment(s, ent, (ord - 1) * 13);
      return r.(scan := s);
    }
    if IsLabel(ent) {
      return r.(scan := Idle);
    }
    var name;
    if UsesLong(r.scan, ent) {
      name := CString(r.scan.buf[..r.scan.len]);
    } else {
      name := ShortToName(ent[..11], ent[12]);
      name := CString(name);
    }
    if Nameless(name) {
      return r.(scan := Idle);
    }
    q := Reader(Idle, r.found[i := RecordOf(r.scan, ent)]);
  }

  function Run(r: Reader, entries: seq<DirEntry>, i: nat, j: nat): (q: Reader)
    requires i <= j <= |entries| && ScanOk(r.scan)
    ensures ScanOk(q.scan)
    decreases j - i
  {
    if i == j then r else Run(Step(r, i, entries[i]), entries, i + 1, j)
  }

  /** Where the scan stops: the first end marker, or the end of the directory. */
  function LiveEnd(entries: seq<DirEntry>): (n: nat)
    ensures n <= |entries|
    ensures forall i :: 0 <= i < n ==> entries[i][0] != ENTRY_END
    ensures n < |entries| ==> entries[n][0] == ENTRY_END
  {
    if entries == [] || entries[0][0] == ENTRY_END then 0 else 1 + LiveEnd(entries[1..])
  }

  const FRESH: Reader := Reader(Idle, map[])

  /** What a remount reads from the directory. */
  function ReadDir(entries: seq<DirEntry>): map<nat, Record> {
    Run(FRESH, entries, 0, LiveEnd(entries)).found
  }

  /** `name` as a scan shows it: bytes outside ASCII become question marks. */
  function Shown(name: seq<Byte>): (r: seq<Byte>)
    ensures |r| == |name|
  {
    seq(|name|, i requires 0 <= i < |name| => if name[i] < 0x80 then name[i] else QUESTION)
  }

  predicate IsAscii(name: seq<Byte>) {
    forall i :: 0 <= i < |name| ==> name[i] < 0x80
  }

  lemma ShownAscii(name: seq<Byte>)
    ensures Shown(name) == name <==> IsAscii(name)
  {
    if Shown(name) == name {
      forall i | 0 <= i < |name| ensures name[i] < 0x80 {
        assert Shown(name)[i] == name[i];
      }
    }
  }

  /** A name as the driver takes it: up to 127 bytes, none of them zero. */
  predicate CName(name: seq<Byte>) {
    0 < |name| < NAME_MAX && forall i :: 0 <= i < |name| ==> name[i] != 0
  }

  /** The scan has the part of `name` from fragment `j` on, and knows its length. */
  ghost predicate Gathered(s: Scan, name: seq<Byte>, count: nat, sum: Byte, j: nat) {
    && s.Pending? && |s.buf| == NAME_MAX && s.count == count && s.sum == sum && s.len == |name| < NAME_MAX
    && forall i :: 13 * j <= i < |name| ==> s.buf[i] == Shown(name)[i]
  }

  /** One character of a fragment is copied. */
  lemma FillChar(s: Scan, ent: DirEntry, name: seq<Byte>, base: nat, k: nat)
    requires CName(name) && s.Pending? && |s.buf| == NAME_MAX && k < 13
    requires Rd16(ent, LfnOffset(k)) == LfnChar(name, base + k)
    ensures Fill(s, ent, base, k) ==
      if base + k < |name| then Fill(s.(buf := s.buf[base + k := Shown(name)[base + k]]), ent, base, k + 1)
      else if base + k < s.len then s.(len := base + k) else s
    requires base + k <= |name|
  {
  }

  /** Copying a fragment of `name` puts its characters in place and finds the end of the name if the
      fragment holds it. */
  lemma {:induction false} FillName(s: Scan, ent: DirEntry, name: seq<Byte>, ord: nat, last: bool, sum: Byte, k: nat)
    requires CName(name) && 0 < ord && IsFragment(ent, name, ord, last, sum)
    requires s.Pending? && |s.buf| == NAME_MAX && k <= 13 && (ord - 1) * 13 + k <= |name|
    ensures Filled(s, Fill(s, ent, (ord - 1) * 13, k), name, (ord - 1) * 13, k)
    decreases 13 - k
  {
    var base := (ord - 1) * 13;
    if k < 13 {
      FillChar(s, ent, name, base, k);
      if base + k < |name| {
        var t := s.(buf := s.buf[base + k := Shown(name)[base + k]]);
        FillName(t, ent, name, ord, last, sum, k + 1);
        FilledMore(s, t, Fill(t, ent, base, k + 1), name, base, k);
      }
    }
  }

  /** `r` is `s` with the characters of `name` from `base + k` to the end of the fragment. */
  ghost predicate Filled(s: Scan, r: Scan, name: seq<Byte>, base: nat, k: nat) {
    && s.Pending? && r.Pending? && |s.buf| == |r.buf| == NAME_MAX && |name| < NAME_MAX
    && r.len == (if |name| < base + 13 && |name| < s.len then |name| else s.len)
    && (forall i :: base + k <= i < base + 13 && i < |name| ==> r.buf[i] == Shown(name)[i])
    && (forall i :: 0 <= i < NAME_MAX && !(base + k <= i < base + 13) ==> r.buf[i] == s.buf[i])
  }

  lemma FilledMore(s: Scan, t: Scan, r: Scan, name: seq<Byte>, base: nat, k: nat)
    requires s.Pending? && |s.buf| == NAME_MAX && base + k < |name| < NAME_MAX && k < 13
    requires t == s.(buf := s.buf[base + k := Shown(name)[base + k]]) && Filled(t, r, name, base, k + 1)
    ensures Filled(s, r, name, base, k)
  {
  }

  /** What the scan does at the fragment that announces `count`, and at a later one. */
  lemma StartsScan(s: Scan, ent: DirEntry, count: nat, sum: Byte)
    requires 0 < count <= 20 && ent[0] == count + 0x40 && ent[13] == sum && ScanOk(s)
    ensures OnFragment(s, ent) == Fill(Pending(count, count * 13, sum, seq(NAME_MAX, _ => 0)), ent, (count - 1) * 13, 0)
  {
    OrdBits(count, true);
  }

  lemma ContinuesScan(s: Scan, ent: DirEntry, ord: nat)
    requires s.Pending? && |s.buf| == NAME_MAX && 0 < ord <= s.count && ord <= 20 && ent[0] == ord && ent[13] == s.sum
    ensures OnFragment(s, ent) == Fill(s, ent, (ord - 1) * 13, 0)
  {
    OrdBits(ord, false);
  }

  lemma OrdBits(ord: nat, last: bool)
    requires ord < 0x40
    ensures var b := ord + (if last then 0x40 else 0); b % 0x40 == ord && (b / 0x40 % 2 == 1) == last
  {
  }

  /** The first fragment written announces the count and settles the length. */
  lemma FirstFragment(s: Scan, ent: DirEntry, name: seq<Byte>, sum: Byte)
    requires CName(name) && ScanOk(s)
    requires IsFragment(ent, name, SlotsFor(|name|), true, sum)
    ensures Gathered(OnFragment(s, ent), name, SlotsFor(|name|), sum, SlotsFor(|name|) - 1)
  {
    var count := SlotsFor(|name|);
    var t := Pending(count, count * 13, sum, seq(NAME_MAX, _ => 0));
    StartsScan(s, ent, count, sum);
    FillName(t, ent, name, count, true, sum, 0);
    FilledGathers(t, Fill(t, ent, (count - 1) * 13, 0), name, count);
  }

  lemma FilledGathers(t: Scan, r: Scan, name: seq<Byte>, ord: nat)
    requires 0 < ord && Filled(t, r, name, (ord - 1) * 13, 0) && r.count == t.count && r.sum == t.sum
    requires (ord == SlotsFor(|name|) && t.len == ord * 13 && 0 < |name|) || Gathered(t, name, t.count, t.sum, ord)
    ensures Gathered(r, name, t.count, t.sum, ord - 1)
  {
  }

  /** Every further fragment extends what is gathered by thirteen characters. */
  lemma NextFragment(s: Scan, ent: DirEntry, name: seq<Byte>, ord: nat, sum: Byte)
    requires CName(name) && 0 < ord < SlotsFor(|name|)
    requires Gathered(s, name, SlotsFor(|name|), sum, ord) && IsFragment(ent, name, ord, false, sum)
    ensures Gathered(OnFragment(s, ent), name, SlotsFor(|name|), sum, ord - 1)
  {
    ContinuesScan(s, ent, ord);
    FillName(s, ent, name, ord, false, sum, 0);
    FilledGathers(s, Fill(s, ent, (ord - 1) * 13, 0), name, ord);
  }

  lemma {:induction false} RunSplit(r: Reader, entries: seq<DirEntry>, i: nat, k: nat, j: nat)
    requires i <= k <= j <= |entries| && ScanOk(r.scan)
    ensures Run(r, entries, i, j) == Run(Run(r, entries, i, k), entries, k, j)
    decreases k - i
  {
    if i < k {
      RunSplit(Step(r, i, entries[i]), entries, i + 1, k, j);
    }
  }

  /** The entries `dir_write_entries` puts at `at`: `count` fragments, last one first, then the short
      entry. */
  ghost predicate WrittenAt(entries: seq<DirEntry>, at: nat, name: seq<Byte>, short: seq<Byte>, count: nat) {
    && at + count < |entries| && |short| == 11
    && (forall f :: 0 <= f < count ==> FragmentAt(entries, at, f, name, count, Checksum(short)))
    && entries[at + count][..11] == short
  }

  ghost predicate FragmentAt(entries: seq<DirEntry>, at: nat, f: nat, name: seq<Byte>, count: nat, sum: Byte)
    requires at + f < |entries| && f < count
  {
    IsFragment(entries[at + f], name, count - f, f == 0, sum)
  }

  ghost predicate Ran(n: int) { true }

  /** The scan from `i` to `j` takes `r` to `q`; folded, see `RunsIs`. */
  ghost predicate RunsTo(r: Reader, entries: seq<DirEntry>, i: nat, j: nat, q: Reader)
    requires i <= j <= |entries| && ScanOk(r.scan)
  {
    forall n: int :: Ran(n) ==> Run(r, entries, i, j) == q
  }

  lemma RunsIs(r: Reader, entries: seq<DirEntry>, i: nat, j: nat, q: Reader)
    requires i <= j <= |entries| && ScanOk(r.scan)
    ensures RunsTo(r, entries, i, j, q) <==> Run(r, entries, i, j) == q
  {
    assert Ran(0);
  }

  lemma RunsOn(r: Reader, entries: seq<DirEntry>, i: nat, j: nat, q: Reader)
    requires i <= j < |entries| && ScanOk(r.scan) && RunsTo(r, entries, i, j, q)
    ensures ScanOk(q.scan)
    ensures RunsTo(r, entries, i, j + 1, Step(q, j, entries[j]))
  {
    assert Ran(0);
    RunSplit(r, entries, i, j, j + 1);
  }

  lemma {:induction false} FragmentsGathered(r: Reader, entries: seq<DirEntry>, at: nat, name: seq<Byte>,
      short: seq<Byte>, m: nat)
    returns (q: Reader)
    requires CName(name) && ScanOk(r.scan)
    requires WrittenAt(entries, at, name, short, SlotsFor(|name|)) && 0 < m <= SlotsFor(|name|)
    ensures RunsTo(r, entries, at, at + m, q) && q.found == r.found
    ensures Gathered(q.scan, name, SlotsFor(|name|), Checksum(short), SlotsFor(|name|) - m)
  {
    var count := SlotsFor(|name|);
    var ent := entries[at + (m - 1)];
    assert FragmentAt(entries, at, m - 1, name, count, Checksum(short));
    if m == 1 {
      RunsIs(r, entries, at, at, r);
      RunsOn(r, entries, at, at, r);
      FirstFragment(r.scan, ent, name, Checksum(short));
      FragmentStep(r, at, ent);
      q := Step(r, at, ent);
    } else {
      var p := FragmentsGathered(r, entries, at, name, short, m - 1);
      RunsOn(r, entries, at, at + m - 1, p);
      NextFragment(p.scan, ent, name, count - m + 1, Checksum(short));
      FragmentStep(p, at + m - 1, ent);
      q := Step(p, at + m - 1, ent);
    }
  }

  lemma FragmentStep(r: Reader, i: nat, ent: DirEntry)
    requires ScanOk(r.scan) && ent[0] != ENTRY_FREE && IsFragmentEntry(ent)
    ensures Step(r, i, ent) == r.(scan := OnFragment(r.scan, ent))
  {
  }

  /** A live short entry that is neither a fragment nor the volume label. */
  predicate PlainShort(ent: DirEntry) {
    ent[0] != ENTRY_FREE && ent[0] != ENTRY_END && !IsFragmentEntry(ent) && !IsLabel(ent)
  }

  ghost function Fields(ent: DirEntry, name: seq<Byte>, slots: nat): Record {
    var isDir := ent[11] / 0x10 % 2 == 1;
    Record(name, isDir, if isDir then 0 else Rd32(ent, 28), ClusterOf(ent), slots)
  }

  lemma GatheredName(s: Scan, ent: DirEntry, name: seq<Byte>, count: nat)
    requires CName(name) && Gathered(s, name, count, Checksum(ent[..11]), 0)
    ensures EntryName(s, ent) == Shown(name)
  {
    assert s.buf[..s.len] == Shown(name);
    assert 0 !in Shown(name);
    CStringWhole(Shown(name));
  }

  lemma LongStep(q: Reader, i: nat, ent: DirEntry, name: seq<Byte>, count: nat)
    requires CName(name) && Gathered(q.scan, name, count, Checksum(ent[..11]), 0) && PlainShort(ent)
    ensures Step(q, i, ent) ==
      Reader(Idle, if Nameless(Shown(name)) then q.found else q.found[i := Fields(ent, Shown(name), count + 1)])
  {
    GatheredName(q.scan, ent, name, count);
  }

  /** The node that the entries of a long name make. */
  ghost function LongFound(found: map<nat, Record>, i: nat, ent: DirEntry, name: seq<Byte>): map<nat, Record> {
    if Nameless(Shown(name)) then found else found[i := Fields(ent, Shown(name), SlotsFor(|name|) + 1)]
  }

  /** Name codec round trip, long form: the scan of the written entries makes one node, whose name is
      the name written, up to the bytes outside ASCII; only "." and ".." make none. */
  lemma {:induction false} LongReadsBack(r: Reader, entries: seq<DirEntry>, at: nat, name: seq<Byte>, short: seq<Byte>)
    requires CName(name) && ScanOk(r.scan)
    requires WrittenAt(entries, at, name, short, SlotsFor(|name|))
    requires PlainShort(entries[at + SlotsFor(|name|)])
    ensures var j := at + SlotsFor(|name|);
      RunsTo(r, entries, at, j + 1, Reader(Idle, LongFound(r.found, j, entries[j], name)))
  {
    var count := SlotsFor(|name|);
    var j := at + count;
    var q := FragmentsGathered(r, entries, at, name, short, count);
    RunsOn(r, entries, at, j, q);
    LongStep(q, j, entries[j], name, count);
  }

  lemma RunLast(r: Reader, entries: seq<DirEntry>, i: nat, j: nat)
    requires i <= j < |entries| && ScanOk(r.scan)
    ensures Run(r, entries, i, j + 1) == Step(Run(r, entries, i, j), j, entries[j])
  {
    RunSplit(r, entries, i, j, j + 1);
  }

  /** Name codec round trip, short form. */
  lemma {:induction false} ShortReadsBack(r: Reader, entries: seq<DirEntry>, at: nat, name: seq<Byte>)
    requires at < |entries| && r.scan.Idle? && PlainShort(entries[at])
    requires NameOf(entries[at][..11], entries[at][12]) == name && 0 !in name && !Nameless(name)
    ensures RunsTo(r, entries, at, at + 1, Reader(Idle, r.found[at := Fields(entries[at], name, 1)]))
  {
    CStringWhole(name);
    RunsIs(r, entries, at, at, r);
    RunsOn(r, entries, at, at, r);
    IdleStep(r, at, entries[at], name);
  }

  lemma IdleStep(r: Reader, at: nat, ent: DirEntry, name: seq<Byte>)
    requires r.scan.Idle? && PlainShort(ent) && CString(NameOf(ent[..11], ent[12])) == name && !Nameless(name)
    ensures Step(r, at, ent) == Reader(Idle, r.found[at := Fields(ent, name, 1)])
  {
  }
}
