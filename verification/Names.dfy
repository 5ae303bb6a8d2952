/** The 8.3 short name of a file and the way back (kernel/fat32.c:376-476). */
module Names {
  import opened Bytes

  const DOT: Byte := 46
  const SPACE: Byte := 32

  const NT_LOWER_BASE: Byte := 0x08
  const NT_LOWER_EXT: Byte := 0x10

  predicate IsUpper(c: Byte) {
    65 <= c <= 90
  }

  predicate IsLower(c: Byte) {
    97 <= c <= 122
  }

  function ToUpper(c: Byte): Byte {
    if IsLower(c) then c - 32 else c
  }

  function ToLower(c: Byte): Byte {
    if IsUpper(c) then c + 32 else c
  }

  /** The characters DOS allows in a short name: upper-case letters, digits and $%'-_@~`!(){}^#& */
  predicate ShortCharOk(c: Byte) {
    IsUpper(c) || 48 <= c <= 57 || c in {36, 37, 39, 45, 95, 64, 126, 96, 33, 40, 41, 123, 125, 94, 35, 38}
  }

  function Upper(s: seq<Byte>): (r: seq<Byte>)
    ensures |r| == |s|
  {
    seq(|s|, i requires 0 <= i < |s| => ToUpper(s[i]))
  }

  function Lower(s: seq<Byte>): (r: seq<Byte>)
    ensures |r| == |s|
  {
    seq(|s|, i requires 0 <= i < |s| => ToLower(s[i]))
  }

  function Pad(s: seq<Byte>, n: nat): (r: seq<Byte>)
    requires |s| <= n
    ensures |r| == n
  {
    s + seq(n - |s|, _ => SPACE)
  }

  /** How many dots a name has. */
  function Dots(name: seq<Byte>): nat {
    if name == [] then 0
    else Dots(name[..|name| - 1]) + if name[|name| - 1] == DOT then 1 else 0
  }

  /** The index of the last dot, or -1. */
  function LastDot(name: seq<Byte>): (d: int)
    ensures -1 <= d < |name|
    ensures d >= 0 ==> name[d] == DOT
    ensures forall i :: d < i < |name| ==> name[i] != DOT
  {
    if name == [] then -1
    else if name[|name| - 1] == DOT then |name| - 1
    else LastDot(name[..|name| - 1])
  }

  function Base(name: seq<Byte>): seq<Byte> {
    if LastDot(name) < 0 then name else name[..LastDot(name)]
  }

  function Ext(name: seq<Byte>): seq<Byte> {
    if LastDot(name) < 0 then [] else name[LastDot(name) + 1..]
  }

  predicate HasLower(s: seq<Byte>) {
    exists i :: 0 <= i < |s| && IsLower(s[i])
  }

  predicate HasUpper(s: seq<Byte>) {
    exists i :: 0 <= i < |s| && IsUpper(s[i])
  }

  /** One half of a short name: legal characters, in one case. */
  predicate HalfOk(s: seq<Byte>) {
    (forall i :: 0 <= i < |s| ==> ShortCharOk(ToUpper(s[i]))) && !(HasLower(s) && HasUpper(s))
  }

  /** Whether `name` can be expressed without long-name entries. */
  predicate HasShort(name: seq<Byte>) {
    && 0 < |name| <= 12
    && name != [DOT] && name != [DOT, DOT]
    && Dots(name) <= 1 && LastDot(name) != 0
    && 0 < |Base(name)| <= 8 && |Ext(name)| <= 3
    && HalfOk(Base(name)) && HalfOk(Ext(name))
  }

  function ShortBytes(name: seq<Byte>): (r: seq<Byte>)
    requires HasShort(name)
    ensures |r| == 11
  {
    Pad(Upper(Base(name)), 8) + Pad(Upper(Ext(name)), 3)
  }

  function ShortFlags(name: seq<Byte>): Byte {
    (if HasLower(Base(name)) then NT_LOWER_BASE else 0) + (if HasLower(Ext(name)) then NT_LOWER_EXT else 0)
  }

  /** The bytes before the first space. */
  function UntilSpace(s: seq<Byte>): (r: seq<Byte>)
    ensures r <= s && SPACE !in r
    ensures |r| < |s| ==> s[|r|] == SPACE
  {
    if s == [] || s[0] == SPACE then [] else [s[0]] + UntilSpace(s[1..])
  }

  predicate LowerBase(nt: Byte) {
    nt / 8 % 2 == 1
  }

  predicate LowerExt(nt: Byte) {
    nt / 16 % 2 == 1
  }

  function Cased(s: seq<Byte>, lower: bool): (r: seq<Byte>)
    ensures |r| == |s|
  {
    if lower then Lower(s) else s
  }

  /** The name an 11-byte short name and its case bits stand for. */
  function NameOf(short: seq<Byte>, nt: Byte): seq<Byte>
    requires |short| == 11
  {
    Cased(UntilSpace(short[..8]), LowerBase(nt)) +
    if short[8] == SPACE then [] else [DOT] + Cased(UntilSpace(short[8..]), LowerExt(nt))
  }

  lemma {:induction false} UntilSpacePad(s: seq<Byte>, n: nat)
    requires |s| <= n && SPACE !in s
    ensures UntilSpace(Pad(s, n)) == s
  {
    if s != [] {
      assert s[0] in s && Pad(s, n)[1..] == Pad(s[1..], n - 1);
      UntilSpacePad(s[1..], n - 1);
    }
  }

  lemma FlagBits(lowerBase: bool, lowerExt: bool, nt: Byte)
    requires nt == (if lowerBase then 8 else 0) + (if lowerExt then 16 else 0)
    ensures LowerBase(nt) == lowerBase && LowerExt(nt) == lowerExt
  {
  }

  /** Upper-casing one half and restoring its case from the flag bit is the identity. */
  lemma HalfRoundTrip(s: seq<Byte>)
    requires HalfOk(s)
    ensures SPACE !in Upper(s) && Cased(Upper(s), HasLower(s)) == s
  {
    forall i | 0 <= i < |s| ensures Upper(s)[i] != SPACE && Cased(Upper(s), HasLower(s))[i] == s[i] {
      assert ShortCharOk(ToUpper(s[i]));
      if HasLower(s) {
        assert !IsUpper(s[i]);
      } else {
        assert !IsLower(s[i]);
      }
    }
  }

  /** What the 8 + 3 padded halves read back as. */
  lemma HalvesReadBack(base: seq<Byte>, ext: seq<Byte>, nt: Byte)
    requires HalfOk(base) && HalfOk(ext) && |base| <= 8 && |ext| <= 3
    requires LowerBase(nt) == HasLower(base) && LowerExt(nt) == HasLower(ext)
    ensures NameOf(Pad(Upper(base), 8) + Pad(Upper(ext), 3), nt) == base + if ext == [] then [] else [DOT] + ext
  {
    var s := Pad(Upper(base), 8) + Pad(Upper(ext), 3);
    HalfRoundTrip(base);
    HalfRoundTrip(ext);
    UntilSpacePad(Upper(base), 8);
    UntilSpacePad(Upper(ext), 3);
    assert s[..8] == Pad(Upper(base), 8) && s[8..] == Pad(Upper(ext), 3);
    if ext != [] {
      assert s[8] == Upper(ext)[0] && Upper(ext)[0] in Upper(ext);
    }
  }

  /** A name with a short form reads back as itself exactly when it does not end in a dot: "foo." is
      accepted and comes back as "foo". */
  lemma ShortRoundTrip(name: seq<Byte>)
    requires HasShort(name)
    ensures NameOf(ShortBytes(name), ShortFlags(name)) == name <==> name[|name| - 1] != DOT
    ensures name[|name| - 1] == DOT ==> NameOf(ShortBytes(name), ShortFlags(name)) == name[..|name| - 1]
  {
    var base, ext := Base(name), Ext(name);
    var back := NameOf(ShortBytes(name), ShortFlags(name));
    assert back == base + if ext == [] then [] else [DOT] + ext by {
      FlagBits(HasLower(base), HasLower(ext), ShortFlags(name));
      HalvesReadBack(base, ext, ShortFlags(name));
    }
    SplitAtDot(name);
  }

  lemma {:induction false} SplitAtDot(name: seq<Byte>)
    requires name != []
    ensures LastDot(name) < 0 ==> Base(name) == name && Ext(name) == [] && name[|name| - 1] != DOT
    ensures LastDot(name) >= 0 ==> name == Base(name) + ([DOT] + Ext(name))
    ensures LastDot(name) >= 0 && Ext(name) == [] <==> name[|name| - 1] == DOT
    ensures name[|name| - 1] == DOT ==> Base(name) == name[..|name| - 1]
  {
    var d := LastDot(name);
    if d >= 0 {
      assert name == name[..d] + ([name[d]] + name[d + 1..]);
      assert |Ext(name)| == |name| - d - 1;
    }
  }

  /** The checking loop over one half of a name; it gives up at the first illegal character. */
  method ScanHalf(s: seq<Byte>) returns (legal: bool, lower: bool, upper: bool)
    ensures legal && !(lower && upper) <==> HalfOk(s)
    ensures legal ==> lower == HasLower(s)
  {
    legal, lower, upper := true, false, false;
    for i := 0 to |s|
      invariant legal && forall j :: 0 <= j < i ==> ShortCharOk(ToUpper(s[j]))
      invariant lower == HasLower(s[..i]) && upper == HasUpper(s[..i])
    {
      assert s[..i + 1] == s[..i] + [s[i]];
      if IsLower(s[i]) {
        assert IsLower(s[..i + 1][i]);
        lower := true;
      } else if IsUpper(s[i]) {
        assert IsUpper(s[..i + 1][i]);
        upper := true;
      }
      assert forall j :: 0 <= j < i ==> s[..i + 1][j] == s[..i][j];
      if !ShortCharOk(ToUpper(s[i])) {
        return false, lower, upper;
      }
    }
    assert s[..|s|] == s;
  }

  /** Copies one half, upper-cased, over spaces. */
  method PutHalf(out: seq<Byte>, at: nat, s: seq<Byte>, room: nat) returns (r: seq<Byte>)
    requires at + room <= |out| && |s| <= room
    requires forall i :: at <= i < at + room ==> out[i] == SPACE
    ensures r == out[..at] + Pad(Upper(s), room) + out[at + room..]
  {
    r := out;
    for i := 0 to |s|
      invariant |r| == |out|
      invariant forall j :: 0 <= j < |out| ==> r[j] == if at <= j < at + i then ToUpper(s[j - at]) else out[j]
    {
      r := r[at + i := ToUpper(s[i])];
    }
  }

  method PutHalves(base: seq<Byte>, ext: seq<Byte>) returns (out: seq<Byte>)
    requires |base| <= 8 && |ext| <= 3
    ensures out == Pad(Upper(base), 8) + Pad(Upper(ext), 3)
  {
    out := seq(11, _ => SPACE);
    out := PutHalf(out, 0, base, 8);
    out := PutHalf(out, 8, ext, 3);
  }

  /** The last dot of a name and how many there are. */
  method FindDots(name: seq<Byte>) returns (dot: int, dots: nat)
    ensures dot == LastDot(name) && dots == Dots(name)
  {
    dot, dots := -1, 0;
    for i := 0 to |name|
      invariant dots == Dots(name[..i]) && dot == LastDot(name[..i])
    {
      assert name[..i + 1][..i] == name[..i];
      if name[i] == DOT {
        dot, dots := i, dots + 1;
      }
    }
    assert name[..|name|] == name;
  }

  /** `make_short`: the 11 bytes and the case bits, or the news that the name needs long entries. */
  method MakeShort(name: seq<Byte>) returns (ok: bool, out: seq<Byte>, nt: Byte)
    ensures ok <==> HasShort(name)
    ensures ok ==> out == ShortBytes(name) && nt == ShortFlags(name)
  {
    ok, out, nt := false, [], 0;
    if |name| == 0 || |name| > 12 || name == [DOT] || name == [DOT, DOT] {
      return;
    }
    var dot, dots := FindDots(name);
    if dots > 1 || dot == 0 {
      return;
    }
    var base := if dot < 0 then name else name[..dot];
    var ext := if dot < 0 then [] else name[dot + 1..];
    if |base| == 0 || |base| > 8 || |ext| > 3 {
      return;
    }
    var baseOk, baseLower, baseUpper := ScanHalf(base);
    if !baseOk {
      return;
    }
    var extOk, extLower, extUpper := ScanHalf(ext);
    if !extOk || (baseLower && baseUpper) || (extLower && extUpper) {
      return;
    }
    out := PutHalves(base, ext);
    nt := (if baseLower then NT_LOWER_BASE else 0) + (if extLower then NT_LOWER_EXT else 0);
    ok := true;
  }

  /** The copying loop of `short_to_name` over one field. */
  method TakeField(s: seq<Byte>, lower: bool) returns (out: seq<Byte>)
    ensures out == Cased(UntilSpace(s), lower)
  {
    out := [];
    var i := 0;
    while i < |s| && s[i] != SPACE
      invariant i <= |s| && |out| == i
      invariant forall j :: 0 <= j < i ==> s[j] != SPACE && out[j] == if lower then ToLower(s[j]) else s[j]
    {
      out := out + [if lower then ToLower(s[i]) else s[i]];
      i := i + 1;
    }
    UntilSpaceIs(s, i);
  }

  lemma {:induction false} UntilSpaceIs(s: seq<Byte>, i: nat)
    requires i <= |s| && (i < |s| ==> s[i] == SPACE)
    requires forall j :: 0 <= j < i ==> s[j] != SPACE
    ensures UntilSpace(s) == s[..i]
  {
    if i > 0 {
      UntilSpaceIs(s[1..], i - 1);
    }
  }

  /** `short_to_name`. */
  method ShortToName(short: seq<Byte>, nt: Byte) returns (out: seq<Byte>)
    requires |short| == 11
    ensures out == NameOf(short, nt)
  {
    out := TakeField(short[..8], LowerBase(nt));
    if short[8] != SPACE {
      var ext := TakeField(short[8..], LowerExt(nt));
      out := out + [DOT] + ext;
    }
  }
}
