/** The entries a name is written as, and when they read back as that name (kernel/fat32.c:1013-1075). */
module Spelling {
  import opened Bytes
  import opened Geometry
  import opened Names
  import opened LongNames
  import opened ShortNames
  import opened Layout
  import opened Edits

  datatype Stamp = Stamp(time: nat, date: nat)

  /** The short entry `dir_write_entries` stores. */
  ghost predicate IsShortEntry(ent: DirEntry, short: seq<Byte>, nt: Byte, isDir: bool, cluster: nat, size: nat) {
    && ent[..11] == short && ent[12] == nt
    && ent[11] == (if isDir then ATTR_DIRECTORY else ATTR_ARCHIVE)
    && ClusterOf(ent) == cluster && Rd32(ent, 28) == size
  }

  method PutStamps(ent: DirEntry, stamp: Stamp) returns (r: DirEntry)
    ensures r[..14] == ent[..14] && ClusterOf(r) == ClusterOf(ent) && Rd32(r, 28) == Rd32(ent, 28)
  {
    r := Wr16(Wr16(Wr16(Wr16(Wr16(ent, 14, stamp.time), 16, stamp.date), 18, stamp.date), 22, stamp.time), 24,
      stamp.date);
    assert forall i :: 0 <= i < 32 && (i < 14 || 20 <= i < 22 || 26 <= i) ==> r[i] == ent[i];
  }

  method PutFields(ent: DirEntry, cluster: nat, size: nat) returns (r: DirEntry)
    requires cluster < WORD && size < WORD
    ensures r[..14] == ent[..14] && ClusterOf(r) == cluster && Rd32(r, 28) == size
  {
    var a := Wr16(ent, 20, cluster / 0x1_0000);
    var b := Wr16(a, 26, cluster % 0x1_0000);
    r := Wr32(b, 28, size);
    assert Rd16(r, 20) == cluster / 0x1_0000 && Rd16(r, 26) == cluster % 0x1_0000 by {
      Rd16Frame(a, b, 20);
      Rd16Frame(b, r, 20);
      Rd16Frame(b, r, 26);
    }
  }

  method MakeShortEntry(short: seq<Byte>, nt: Byte, isDir: bool, cluster: nat, size: nat, stamp: Stamp)
    returns (ent: DirEntry)
    requires |short| == 11 && cluster < WORD && size < WORD
    ensures IsShortEntry(ent, short, nt, isDir, cluster, size)
  {
    var e: seq<Byte> := short + [if isDir then ATTR_DIRECTORY else ATTR_ARCHIVE, nt] + seq(19, _ => 0);
    var c := PutFields(e, cluster, size);
    ent := PutStamps(c, stamp);
    assert ent[..14] == e[..14];
    assert ent[..11] == ent[..14][..11] && e[..11] == e[..14][..11];
    assert ent[11] == ent[..14][11] && ent[12] == ent[..14][12];
  }

  /** Which names come back as they were given: in long form all ASCII names but "." and ".."; in short
      form those that do not end in a dot. */
  predicate Kept(name: seq<Byte>, long: bool)
    requires name != []
  {
    if long then IsAscii(name) && !Nameless(name) else name[|name| - 1] != DOT
  }

  ghost predicate SpelledBy(f: Entries, s: nat, name: seq<Byte>, long: bool, rec: Record, short: seq<Byte>, nt: Byte)
    requires 0 < rec.slots && s + rec.slots <= |f|
  {
    && |short| == 11 && ShortCharOk(short[0])
    && IsShortEntry(f[s + rec.slots - 1], short, nt, rec.isDir, rec.cluster, rec.length)
    && WrittenAt(f, s, name, short, rec.slots - 1)
    && (!long ==> HasShort(name) && short == ShortBytes(name) && nt == ShortFlags(name))
  }

  /** The entries from `s` on spell `name` and hold its fields. */
  ghost predicate Spells(f: Entries, s: nat, name: seq<Byte>, long: bool, rec: Record) {
    && 0 < rec.slots && s + rec.slots <= |f| && rec.name == name
    && rec.slots == (if long then SlotsFor(|name|) else 0) + 1
    && exists short, nt :: SpelledBy(f, s, name, long, rec, short, nt)
  }

  lemma ShortIsPlain(ent: DirEntry, short: seq<Byte>, nt: Byte, isDir: bool, cluster: nat, size: nat)
    requires |short| == 11 && ShortCharOk(short[0]) && IsShortEntry(ent, short, nt, isDir, cluster, size)
    ensures PlainShort(ent)
    ensures forall name, slots ::
      Fields(ent, name, slots) == Record(name, isDir, if isDir then 0 else size, cluster, slots)
  {
    assert ent[0] == ent[..11][0];
  }

  lemma FragmentLive(ent: DirEntry, name: seq<Byte>, ord: nat, last: bool, sum: Byte)
    requires 0 < ord <= 10 && IsFragment(ent, name, ord, last, sum)
    ensures ent[0] != ENTRY_FREE && ent[0] != ENTRY_END && IsFragmentEntry(ent)
  {
  }

  /** What was written stands as a group. */
  lemma SpellsGrouped(f: Entries, s: nat, name: seq<Byte>, long: bool, rec: Record)
    requires CName(name) && Spells(f, s, name, long, rec)
    ensures Grouped(f, s + rec.slots - 1, rec.slots)
  {
    var short, nt :| SpelledBy(f, s, name, long, rec, short, nt);
    ShortIsPlain(f[s + rec.slots - 1], short, nt, rec.isDir, rec.cluster, rec.length);
    forall k | s <= k < s + rec.slots - 1
      ensures f[k][0] != ENTRY_FREE && f[k][0] != ENTRY_END && IsFragmentEntry(f[k])
    {
      assert FragmentAt(f, s, k - s, name, rec.slots - 1, Checksum(short));
      FragmentLive(f[s + (k - s)], name, rec.slots - 1 - (k - s), k == s, Checksum(short));
    }
  }

  lemma HalfBytes(s: seq<Byte>)
    requires HalfOk(s)
    ensures forall i :: 0 <= i < |s| ==> s[i] != 0 && s[i] != DOT
  {
    forall i | 0 <= i < |s| ensures s[i] != 0 && s[i] != DOT {
      assert ShortCharOk(ToUpper(s[i]));
    }
  }

  lemma ShortFormBytes(name: seq<Byte>)
    requires HasShort(name)
    ensures name[0] != DOT && forall i :: 0 <= i < |name| ==> name[i] != 0
  {
    var base, ext := Base(name), Ext(name);
    HalfBytes(base);
    HalfBytes(ext);
    assert name == base || name == base + ([DOT] + ext) by {
      SplitAtDot(name);
    }
  }

  /** A short form reads back as a name without zeros that is neither empty nor a dot name. */
  lemma ShortFormReads(name: seq<Byte>)
    requires HasShort(name)
    ensures var back := NameOf(ShortBytes(name), ShortFlags(name)); 0 !in back && !Nameless(back)
  {
    var back := NameOf(ShortBytes(name), ShortFlags(name));
    ShortRoundTrip(name);
    assert name[|name| - 1] != DOT || back == name[..|name| - 1];
    ShortFormBytes(name);
    assert 0 < |back| && back <= name;
    assert back[0] == name[0];
  }

  lemma ShownNameless(name: seq<Byte>)
    ensures Nameless(Shown(name)) <==> Nameless(name)
  {
    assert |name| > 0 ==> (Shown(name)[0] == DOT <==> name[0] == DOT);
    assert |name| > 1 ==> (Shown(name)[1] == DOT <==> name[1] == DOT);
    if Nameless(name) || Nameless(Shown(name)) {
      assert Shown(name) == name;
    }
  }

  ghost function Back(name: seq<Byte>, long: bool, short: seq<Byte>, nt: Byte): seq<Byte>
    requires |short| == 11
  {
    if long then Shown(name) else NameOf(short, nt)
  }

  lemma {:induction false} LongReading(f: Entries, s: nat, name: seq<Byte>, short: seq<Byte>, at: nat, slots: nat)
    requires CName(name) && slots == SlotsFor(|name|) + 1 && at + 1 == s + slots && at < |f|
    requires WrittenAt(f, s, name, short, slots - 1) && PlainShort(f[at])
    ensures Reading(f, at, slots) == if Nameless(Shown(name)) then map[]
      else map[at := Fields(f[at], Shown(name), slots)]
  {
    LongReadsBack(FRESH, f, s, name, short);
    ReadingIs(f, at, slots, s, Reader(Idle, LongFound(map[], at, f[at], name)));
  }

  lemma {:induction false} ReadingIs(f: Entries, at: nat, slots: nat, s: nat, q: Reader)
    requires 0 < slots <= at + 1 <= |f| && s == at + 1 - slots && RunsTo(FRESH, f, s, at + 1, q)
    ensures Reading(f, at, slots) == q.found
  {
    RunsIs(FRESH, f, s, at + 1, q);
  }

  lemma {:induction false} ShortReading(f: Entries, name: seq<Byte>, short: seq<Byte>, nt: Byte, at: nat)
    requires CName(name) && HasShort(name) && short == ShortBytes(name) && nt == ShortFlags(name)
    requires at < |f| && f[at][..11] == short && f[at][12] == nt && PlainShort(f[at])
    ensures Reading(f, at, 1) == map[at := Fields(f[at], NameOf(short, nt), 1)]
  {
    ShortFormReads(name);
    ShortReadsBack(FRESH, f, at, NameOf(short, nt));
    ReadingIs(f, at, 1, at, Reader(Idle, map[at := Fields(f[at], NameOf(short, nt), 1)]));
  }

  /** What a scan makes of the entries written. */
  lemma {:induction false} SpelledReading(f: Entries, s: nat, name: seq<Byte>, long: bool, rec: Record,
      short: seq<Byte>, nt: Byte, at: nat)
    requires CName(name) && 0 < rec.slots && s + rec.slots <= |f| && at + 1 == s + rec.slots
    requires rec.slots == (if long then SlotsFor(|name|) else 0) + 1
    requires SpelledBy(f, s, name, long, rec, short, nt)
    ensures var back := Back(name, long, short, nt);
      Reading(f, at, rec.slots) == if long && Nameless(back) then map[] else map[at := Fields(f[at], back, rec.slots)]
  {
    assert at == s + rec.slots - 1;
    ShortIsPlain(f[at], short, nt, rec.isDir, rec.cluster, rec.length);
    if long {
      LongReading(f, s, name, short, at, rec.slots);
    } else {
      ShortReading(f, name, short, nt, at);
    }
  }

  lemma BackKept(name: seq<Byte>, long: bool, short: seq<Byte>, nt: Byte)
    requires CName(name) && |short| == 11
    requires !long ==> HasShort(name) && short == ShortBytes(name) && nt == ShortFlags(name)
    ensures !(long && Nameless(Back(name, long, short, nt))) && Back(name, long, short, nt) == name <==>
      Kept(name, long)
  {
    if long {
      ShownAscii(name);
      ShownNameless(name);
    } else {
      ShortRoundTrip(name);
    }
  }

  /** The file written reads back as itself exactly for the names that are kept. */
  lemma SpellsReads(f: Entries, s: nat, name: seq<Byte>, long: bool, rec: Record)
    requires CName(name) && Spells(f, s, name, long, rec) && (rec.isDir ==> rec.length == 0)
    requires Group(f, s + rec.slots - 1, rec.slots)
    ensures Faithful(f, s + rec.slots - 1, rec) <==> Kept(name, long)
  {
    var at := s + rec.slots - 1;
    var short, nt :| SpelledBy(f, s, name, long, rec, short, nt);
    ShortIsPlain(f[at], short, nt, rec.isDir, rec.cluster, rec.length);
    SpelledReading(f, s, name, long, rec, short, nt, at);
    ReadingDecides(f, at, rec, Back(name, long, short, nt), long);
    BackKept(name, long, short, nt);
  }

  lemma ReadingDecides(f: Entries, at: nat, rec: Record, back: seq<Byte>, long: bool)
    requires Group(f, at, rec.slots)
    requires Fields(f[at], back, rec.slots) == rec.(name := back)
    requires Reading(f, at, rec.slots) == if long && Nameless(back) then map[]
      else map[at := Fields(f[at], back, rec.slots)]
    ensures Faithful(f, at, rec) <==> !(long && Nameless(back)) && back == rec.name
  {
    FaithfulIs(f, at, rec);
    assert map[at := rec][at] == rec;
    assert map[at := Fields(f[at], back, rec.slots)][at] == rec.(name := back);
  }

  lemma ShortFirst(name: seq<Byte>)
    requires HasShort(name)
    ensures ShortCharOk(ShortBytes(name)[0])
  {
    assert HalfOk(Base(name)) && ShortBytes(name)[0] == Upper(Base(name))[0];
  }

  lemma AddedGroup(e: Entries, f: Entries, c: Index, s: nat, rec: Record, at: nat)
    requires LaidOut(e, Slots(c)) && 0 < rec.slots && at + 1 == s + rec.slots && Grouped(f, at, rec.slots)
    requires Spliced(e, f, s, rec.slots) && Vacant(e, s, rec.slots)
    ensures at !in c && LaidOut(f, Slots(c[at := rec])) && Group(f, at, rec.slots)
    ensures Remounts(f, c[at := rec]) <==> Remounts(e, c) && Faithful(f, at, rec)
    ensures forall b :: b in c ==> (Faithful(e, b, c[b]) <==> Faithful(f, b, c[b]))
  {
    assert at == s + rec.slots - 1;
    Inserted(e, f, c, s, rec.slots, rec);
    InsertedReads(e, f, c, at, rec);
  }

  lemma AddedReads(f: Entries, s: nat, name: seq<Byte>, long: bool, rec: Record, at: nat)
    requires CName(name) && Spells(f, s, name, long, rec) && at + 1 == s + rec.slots && (rec.isDir ==> rec.length == 0)
    ensures Grouped(f, at, rec.slots)
    ensures Group(f, at, rec.slots) ==> (Faithful(f, at, rec) <==> Kept(name, long))
  {
    assert at == s + rec.slots - 1;
    SpellsGrouped(f, s, name, long, rec);
    if Group(f, at, rec.slots) {
      SpellsReads(f, s, name, long, rec);
    }
  }

  /** Writing a name over free entries adds its file to the directory; a remount reads it back exactly
      if the name is one of those kept. */
  lemma Added(e: Entries, f: Entries, c: Index, s: nat, name: seq<Byte>, long: bool, rec: Record, at: nat)
    requires Holds(e, c) && CName(name) && Spells(f, s, name, long, rec) && at + 1 == s + rec.slots
    requires Spliced(e, f, s, rec.slots) && Vacant(e, s, rec.slots) && (rec.isDir ==> rec.length == 0)
    ensures at !in c && Holds(f, c[at := rec])
    ensures Remounts(f, c[at := rec]) <==> Remounts(e, c) && Kept(name, long)
    ensures Faithful(f, at, rec) <==> Kept(name, long)
    ensures forall b :: b in c ==> (Faithful(e, b, c[b]) <==> Faithful(f, b, c[b]))
  {
    HoldsIs(e, c);
    AddedReads(f, s, name, long, rec, at);
    AddedGroup(e, f, c, s, rec, at);
    HoldsIs(f, c[at := rec]);
  }

  /** Its short name was not in use, so short names stay unique. */
  lemma AddedUnique(e: Entries, f: Entries, c: Index, s: nat, name: seq<Byte>, long: bool, rec: Record)
    requires Holds(e, c) && CName(name) && Spells(f, s, name, long, rec)
    requires Spliced(e, f, s, rec.slots) && Vacant(e, s, rec.slots)
    requires ShortUnique(e) && !Taken(e, f[s + rec.slots - 1][..11])
    ensures ShortUnique(f)
  {
    HoldsIs(e, c);
    SpellsGrouped(f, s, name, long, rec);
    InsertedUnique(e, f, Slots(c), s, rec.slots);
  }
}
