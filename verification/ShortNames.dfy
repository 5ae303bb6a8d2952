/** Generated short names: "LONGNA~1" and its successors (kernel/fat32.c:1078-1144). */
module ShortNames {
  import opened Bytes
  import opened Names
  import opened LongNames
  import opened Chains

  const TILDE: Byte := 126
  const UNDERSCORE: Byte := 95
  const LAST_TRY: nat := 999_999

  function Legal(c: Byte): (r: Byte)
    ensures ShortCharOk(r)
  {
    if ShortCharOk(ToUpper(c)) then ToUpper(c) else UNDERSCORE
  }

  /** The characters of a long name that a generated base is made of: spaces and dots are dropped. */
  function StemChars(s: seq<Byte>): (r: seq<Byte>)
    ensures forall i :: 0 <= i < |r| ==> ShortCharOk(r[i])
  {
    if s == [] then []
    else if s[0] == SPACE || s[0] == DOT then StemChars(s[1..])
    else [Legal(s[0])] + StemChars(s[1..])
  }

  function Take(s: seq<Byte>, n: nat): (r: seq<Byte>)
    ensures r <= s && |r| <= n
  {
    if |s| <= n then s else s[..n]
  }

  function Stem(name: seq<Byte>): (r: seq<Byte>)
    ensures 0 < |r| <= 6 && forall i :: 0 <= i < |r| ==> ShortCharOk(r[i])
  {
    var s := Take(StemChars(Base(name)), 6);
    if s == [] then [UNDERSCORE] else s
  }

  function ShortExt(name: seq<Byte>): (r: seq<Byte>)
    ensures |r| <= 3
  {
    var e := Take(Ext(name), 3);
    seq(|e|, i requires 0 <= i < |e| => Legal(e[i]))
  }

  /** The decimal digits of `n`, most significant first. */
  function Digits(n: nat): (r: seq<Byte>)
    ensures 0 < |r| && forall i :: 0 <= i < |r| ==> 48 <= r[i] <= 57
  {
    if n < 10 then [48 + n] else Digits(n / 10) + [48 + n % 10]
  }

  ghost function Value(ds: seq<Byte>): int {
    if ds == [] then 0 else Value(ds[..|ds| - 1]) * 10 + (ds[|ds| - 1] as int - 48)
  }

  lemma {:induction false} DigitsValue(n: nat)
    ensures Value(Digits(n)) == n
  {
    if n >= 10 {
      DigitsValue(n / 10);
      assert Digits(n)[..|Digits(n)| - 1] == Digits(n / 10);
    } else {
      assert Digits(n)[..0] == [];
    }
  }

  ghost function Pow10(k: nat): nat {
    if k == 0 then 1 else 10 * Pow10(k - 1)
  }

  lemma {:induction false} DigitsLength(n: nat, k: nat)
    requires 0 < k && n < Pow10(k)
    ensures |Digits(n)| <= k
  {
    if n >= 10 {
      assert k > 1;
      DigitsLength(n / 10, k - 1);
    }
  }

  function Tail(n: nat): (r: seq<Byte>) {
    [TILDE] + Digits(n)
  }

  lemma TailLength(n: nat)
    requires n <= LAST_TRY
    ensures 2 <= |Tail(n)| <= 7
  {
    assert Pow10(6) == 1_000_000 by {
      assert Pow10(3) == 1000;
    }
    DigitsLength(n, 6);
  }

  /** The part of the stem that fits before the tail, and the tail. */
  function Numbered(name: seq<Byte>, n: nat): (r: seq<Byte>)
    requires |Tail(n)| <= 7
    ensures |Tail(n)| < |r| <= 8
  {
    Take(Stem(name), 8 - |Tail(n)|) + Tail(n)
  }

  /** The `n`-th short name tried for `name`. */
  function Candidate(name: seq<Byte>, n: nat): (r: seq<Byte>)
    requires |Tail(n)| <= 7
    ensures |r| == 11
  {
    Pad(Numbered(name, n), 8) + Pad(ShortExt(name), 3)
  }

  lemma NumberedNoSpace(name: seq<Byte>, n: nat)
    requires |Tail(n)| <= 7
    ensures SPACE !in Numbered(name, n)
    ensures ShortCharOk(Candidate(name, n)[0])
  {
    var k := Take(Stem(name), 8 - |Tail(n)|);
    forall i | 0 <= i < |Numbered(name, n)| ensures Numbered(name, n)[i] != SPACE {
      if i < |k| {
        assert k[i] == Stem(name)[i] && ShortCharOk(Stem(name)[i]);
      } else if i > |k| {
        assert Numbered(name, n)[i] == Digits(n)[i - |k| - 1];
      }
    }
    assert Candidate(name, n)[0] == k[0] == Stem(name)[0];
  }

  /** Different numbers give different names: the last tilde of the base starts the number. */
  lemma CandidateInjective(name: seq<Byte>, n: nat, m: nat)
    requires n <= LAST_TRY && m <= LAST_TRY && |Tail(n)| <= 7 && |Tail(m)| <= 7
    requires Candidate(name, n) == Candidate(name, m)
    ensures n == m
  {
    NumberedNoSpace(name, n);
    NumberedNoSpace(name, m);
    UntilSpacePad(Numbered(name, n), 8);
    UntilSpacePad(Numbered(name, m), 8);
    assert Candidate(name, n)[..8] == Pad(Numbered(name, n), 8);
    assert Candidate(name, m)[..8] == Pad(Numbered(name, m), 8);
    TailsAgree(Numbered(name, n), Take(Stem(name), 8 - |Tail(n)|), n, Take(Stem(name), 8 - |Tail(m)|), m);
    DigitsValue(n);
    DigitsValue(m);
  }

  lemma TildeAt(s: seq<Byte>, a: seq<Byte>, n: nat)
    requires s == a + Tail(n)
    ensures |a| < |s| && s[|a|] == TILDE && s[|a| + 1..] == Digits(n)
    ensures forall i :: |a| < i < |s| ==> 48 <= s[i] <= 57
  {
    assert forall i :: |a| < i < |s| ==> s[i] == Digits(n)[i - |a| - 1];
  }

  lemma TailsAgree(s: seq<Byte>, a: seq<Byte>, n: nat, b: seq<Byte>, m: nat)
    requires s == a + Tail(n) && s == b + Tail(m)
    ensures Digits(n) == Digits(m)
  {
    TildeAt(s, a, n);
    TildeAt(s, b, m);
    assert |a| == |b|;
  }

  /** A short entry in use, as `short_name_taken` sees it: live, before the end marker, no fragment. */
  predicate InUse(entries: seq<DirEntry>, p: nat) {
    p < |entries| && p < LiveEnd(entries) && entries[p][0] != ENTRY_FREE && !IsFragmentEntry(entries[p])
  }

  ghost predicate Taken(entries: seq<DirEntry>, short: seq<Byte>) {
    exists p: nat :: InUse(entries, p) && entries[p][..11] == short
  }

  /** The indexes of the short entries in use. */
  ghost function Uses(entries: seq<DirEntry>): set<nat> {
    set p: nat | p < |entries| && InUse(entries, p)
  }

  /** The short names in use. */
  ghost function Names11(entries: seq<DirEntry>): set<seq<Byte>> {
    set p: nat | p < |entries| && InUse(entries, p) :: entries[p][..11]
  }

  /** The candidates numbered 1 to `n`. */
  ghost function Tried(name: seq<Byte>, n: nat): set<seq<Byte>>
    requires n <= LAST_TRY
  {
    if n == 0 then {} else TailLength(n); Tried(name, n - 1) + {Candidate(name, n)}
  }

  lemma {:induction false} TriedAre(name: seq<Byte>, n: nat, c: seq<Byte>) returns (k: nat)
    requires n <= LAST_TRY && c in Tried(name, n)
    ensures 0 < k <= n && |Tail(k)| <= 7 && c == Candidate(name, k)
  {
    TailLength(n);
    if c == Candidate(name, n) {
      k := n;
    } else {
      k := TriedAre(name, n - 1, c);
    }
  }

  lemma {:induction false} TriedCard(name: seq<Byte>, n: nat)
    requires n <= LAST_TRY
    ensures |Tried(name, n)| == n
  {
    if n > 0 {
      TriedCard(name, n - 1);
      TailLength(n);
      if Candidate(name, n) in Tried(name, n - 1) {
        var k := TriedAre(name, n - 1, Candidate(name, n));
        CandidateInjective(name, n, k);
      }
    }
  }

  lemma {:induction false} ImageCard(entries: seq<DirEntry>, uses: set<nat>)
    requires forall p :: p in uses ==> p < |entries|
    ensures |set p | p in uses :: entries[p][..11]| <= |uses|
  {
    var image := set p | p in uses :: entries[p][..11];
    if uses != {} {
      var p :| p in uses;
      var rest := uses - {p};
      ImageCard(entries, rest);
      var image' := set q | q in rest :: entries[q][..11];
      assert image == image' + {entries[p][..11]};
    }
  }

  lemma TakenIsName(entries: seq<DirEntry>, short: seq<Byte>)
    requires Taken(entries, short)
    ensures short in Names11(entries)
  {
    var p: nat :| InUse(entries, p) && entries[p][..11] == short;
  }

  lemma NamesAreImage(entries: seq<DirEntry>)
    ensures |Names11(entries)| <= |Uses(entries)|
  {
    ImageCard(entries, Uses(entries));
    assert Names11(entries) == set p | p in Uses(entries) :: entries[p][..11];
  }

  /** If all candidates up to the last are names in use, that many short entries are in use. */
  lemma Pigeonhole(entries: seq<DirEntry>, name: seq<Byte>, n: nat)
    requires n <= LAST_TRY && Tried(name, n) <= Names11(entries)
    ensures n <= |Uses(entries)|
  {
    TriedCard(name, n);
    SubsetCard(Tried(name, n), Names11(entries));
    NamesAreImage(entries);
  }

  lemma {:induction false} StemSplit(a: seq<Byte>, b: seq<Byte>)
    ensures StemChars(a + b) == StemChars(a) + StemChars(b)
  {
    if a == [] {
      assert a + b == b;
    } else {
      assert (a + b)[1..] == a[1..] + b;
      StemSplit(a[1..], b);
    }
  }

  /** The loop that gathers the base of a generated name. */
  method MakeStem(name: seq<Byte>, dot: int) returns (base: seq<Byte>)
    requires dot == LastDot(name)
    ensures base == Stem(name)
  {
    ghost var whole := Base(name);
    base := [];
    var i := 0;
    while i < |name| && |base| < 6 && !(dot >= 0 && i >= dot)
      invariant i <= |whole| && |base| <= 6
      invariant base == StemChars(whole[..i])
    {
      var c := ToUpper(name[i]);
      assert whole[..i + 1] == whole[..i] + [name[i]];
      StemSplit(whole[..i], [name[i]]);
      if c != SPACE && c != DOT {
        base := base + [if ShortCharOk(c) then c else UNDERSCORE];
      }
      i := i + 1;
    }
    assert whole == whole[..i] + whole[i..];
    StemSplit(whole[..i], whole[i..]);
    if base == [] {
      base := [UNDERSCORE];
    }
  }

  /** The loops that spell the number: digits least significant first, then turned round. */
  method MakeTail(n: nat) returns (tail: seq<Byte>)
    requires 0 < n
    ensures tail == Tail(n)
  {
    var v: nat, digits: seq<Byte> := n, [];
    while v > 0
      invariant Digits(n) == (if v == 0 then [] else Digits(v)) + Reverse(digits)
    {
      assert Reverse(digits + [48 + v % 10]) == [48 + v % 10] + Reverse(digits);
      digits := digits + [48 + v % 10];
      v := v / 10;
    }
    tail := [TILDE];
    var k: nat := |digits|;
    assert digits[..k] == digits;
    while k > 0
      invariant k <= |digits|
      invariant tail + Reverse(digits[..k]) == [TILDE] + Reverse(digits)
    {
      assert Reverse(digits[..k]) == [digits[k - 1]] + Reverse(digits[..k - 1]);
      k := k - 1;
      tail := tail + [digits[k]];
    }
    assert tail + Reverse(digits[..0]) == tail;
  }

  ghost function Reverse(s: seq<Byte>): (r: seq<Byte>)
    ensures |r| == |s|
  {
    seq(|s|, i requires 0 <= i < |s| => s[|s| - 1 - i])
  }

  /** The `n`-th candidate, as the loop of `generate_short` builds it. */
  method MakeCandidate(name: seq<Byte>, base: seq<Byte>, ext: seq<Byte>, n: nat) returns (short: seq<Byte>)
    requires base == Stem(name) && ext == ShortExt(name) && 0 < n <= LAST_TRY
    ensures |Tail(n)| <= 7 && short == Candidate(name, n) && ShortCharOk(short[0])
  {
    var tail := MakeTail(n);
    TailLength(n);
    var keep := 8 - |tail|;
    if keep > |base| {
      keep := |base|;
    }
    short := Pad(base[..keep] + tail, 8) + Pad(ext, 3);
    assert base[..keep] == Take(Stem(name), 8 - |Tail(n)|);
    NumberedNoSpace(name, n);
  }
}
