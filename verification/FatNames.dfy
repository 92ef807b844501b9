/** 8.3 file names: how the driver packs a name into a directory entry and reads it back. */
module FatNames {
  import opened Bytes

  const SPACE: Byte := 0x20
  const DOT: Byte := 0x2E
  const DELETED: Byte := 0xE5
  const LOWER_BASE: nat := 0x08
  const LOWER_EXT: nat := 0x10

  /** A NUL-terminated string, without its terminator. */
  type CString = s: seq<Byte> | 0 !in s

  /** A 32-byte directory entry: base name 0..8, extension 8..11, attributes 11, case flags 12. */
  type Slot = s: seq<Byte> | |s| == 32 witness seq(32, _ => 0)

  predicate IsUpper(b: Byte) { 0x41 <= b <= 0x5A }

  predicate IsLower(b: Byte) { 0x61 <= b <= 0x7A }

  function Upper(b: Byte): Byte { if IsLower(b) then b - 32 else b }

  function Lower(b: Byte): Byte { if IsUpper(b) then b + 32 else b }

  function UpperAll(s: seq<Byte>): (r: seq<Byte>)
    ensures |r| == |s|
  {
    seq(|s|, i requires 0 <= i < |s| => Upper(s[i]))
  }

  /** ASCII case folding: names that fold alike are the same name to the driver. */
  function Fold(s: seq<Byte>): (r: seq<Byte>)
    ensures |r| == |s|
  {
    seq(|s|, i requires 0 <= i < |s| => Lower(s[i]))
  }

  predicate HasUpper(s: seq<Byte>) { exists i :: 0 <= i < |s| && IsUpper(s[i]) }

  predicate HasLower(s: seq<Byte>) { exists i :: 0 <= i < |s| && IsLower(s[i]) }

  /** `s` without its trailing spaces. */
  function Trim(s: seq<Byte>): (r: seq<Byte>)
    ensures r <= s
    ensures r != [] ==> r[|r| - 1] != SPACE
    ensures forall i :: |r| <= i < |s| ==> s[i] == SPACE
  {
    if s == [] || s[|s| - 1] != SPACE then s else Trim(s[..|s| - 1])
  }

  /** `s` cut or padded with spaces to `n` bytes. */
  function Pad(s: seq<Byte>, n: nat): (r: seq<Byte>)
    ensures |r| == n
  {
    if |s| >= n then s[..n] else s + seq(n - |s|, _ => SPACE)
  }

  function Take(s: seq<Byte>, n: nat): seq<Byte> {
    if |s| <= n then s else s[..n]
  }

  /** Position of the first dot, or the length. */
  function DotIndex(s: seq<Byte>): (k: nat)
    ensures k <= |s|
    ensures k < |s| ==> s[k] == DOT
    ensures forall i :: 0 <= i < k ==> s[i] != DOT
  {
    if s == [] || s[0] == DOT then 0 else 1 + DotIndex(s[1..])
  }

  function Base(name: seq<Byte>): seq<Byte> { name[..DotIndex(name)] }

  function Ext(name: seq<Byte>): seq<Byte> {
    if DotIndex(name) == |name| then [] else name[DotIndex(name) + 1..]
  }

  // ---- what the two conversions compute ----

  /** The packed form of a name. */
  datatype Packed = Packed(name: seq<Byte>, ext: seq<Byte>, flags: nat)

  function Encoded(name: seq<Byte>): (p: Packed)
    ensures |p.name| == 8 && |p.ext| == 3 && p.flags < 256
  {
    Packed(Pad(UpperAll(Base(name)), 8), Pad(UpperAll(Ext(name)), 3),
           (if HasLower(Take(Base(name), 8)) then LOWER_BASE else 0) +
           (if HasLower(Take(Ext(name), 3)) then LOWER_EXT else 0))
  }

  function Cased(lower: bool, s: seq<Byte>): seq<Byte> {
    if lower then Fold(s) else s
  }

  function Decoded(p: Packed): seq<Byte> {
    var base := Cased(p.flags / LOWER_BASE % 2 == 1, Trim(p.name));
    var ext := Cased(p.flags / LOWER_EXT % 2 == 1, Trim(p.ext));
    if ext == [] then base else base + [DOT] + ext
  }

  // ---- the loops ----

  method TrimmedLength(s: seq<Byte>) returns (n: nat)
    ensures n <= |s| && s[..n] == Trim(s)
  {
    n := |s|;
    while n > 0 && s[n - 1] == SPACE
      invariant n <= |s| && Trim(s) == Trim(s[..n])
    {
      assert s[..n][..n - 1] == s[..n - 1];
      n := n - 1;
    }
  }

  method AppendCased(lower: bool, s: seq<Byte>, out: seq<Byte>) returns (r: seq<Byte>)
    ensures r == out + Cased(lower, s)
  {
    r := out;
    var k := 0;
    while k < |s|
      invariant 0 <= k <= |s| && r == out + Cased(lower, s[..k])
    {
      var c := s[k];
      if lower && IsUpper(c) {
        c := c + 32;
      }
      assert Cased(lower, s[..k + 1]) == Cased(lower, s[..k]) + [c];
      r := r + [c];
      k := k + 1;
    }
    assert s[..k] == s;
  }

  method Decode83(p: Packed) returns (out: seq<Byte>)
    requires |p.name| == 8 && |p.ext| == 3
    ensures out == Decoded(p) && |out| <= 12
  {
    hide Trim, Fold;
    var lowerBase, lowerExt := p.flags / LOWER_BASE % 2 == 1, p.flags / LOWER_EXT % 2 == 1;
    var nameLen := TrimmedLength(p.name);
    out := AppendCased(lowerBase, p.name[..nameLen], []);
    var extLen := TrimmedLength(p.ext);
    if extLen > 0 {
      out := AppendCased(lowerExt, p.ext[..extLen], out + [DOT]);
    }
  }

  lemma {:induction false} HasLowerSnoc(s: seq<Byte>, c: Byte)
    ensures HasLower(s + [c]) <==> HasLower(s) || IsLower(c)
  {
    if HasLower(s) {
      var i :| 0 <= i < |s| && IsLower(s[i]);
      assert IsLower((s + [c])[i]);
    }
    if IsLower(c) {
      assert IsLower((s + [c])[|s|]);
    }
  }

  /** Copies up to `n` characters of `name[from..to]` in upper case over spaces. */
  method PackPart(part: seq<Byte>, n: nat) returns (out: seq<Byte>, sawLower: bool)
    ensures out == Pad(UpperAll(part), n)
    ensures sawLower == HasLower(Take(part, n))
  {
    var i := 0;
    out, sawLower := [], false;
    while i < |part| && i < n
      invariant 0 <= i <= |part| && i <= n
      invariant out == UpperAll(part[..i]) && sawLower == HasLower(part[..i])
    {
      var c := part[i];
      assert part[..i + 1] == part[..i] + [c];
      HasLowerSnoc(part[..i], c);
      if IsLower(c) {
        sawLower := true;
        c := c - 32;
      }
      out := out + [c];
      i := i + 1;
    }
    assert part[..i] == Take(part, n);
    out := Pad(out, n);
  }

  method Encode83(name: CString) returns (p: Packed)
    ensures p == Encoded(name)
  {
    var j := 0;
    while j < |name| && name[j] != DOT
      invariant 0 <= j <= |name| && DotIndex(name) == j + DotIndex(name[j..])
    {
      j := j + 1;
    }
    var base, lowerBase := PackPart(name[..j], 8);
    var ext, lowerExt := Pad([], 3), false;
    if j < |name| {
      ext, lowerExt := PackPart(name[j + 1..], 3);
    }
    p := Packed(base, ext, (if lowerBase then LOWER_BASE else 0) + (if lowerExt then LOWER_EXT else 0));
  }

  /** The string a buffer holds, up to its first NUL. */
  function CStr(s: seq<Byte>): (r: CString) {
    if s == [] || s[0] == 0 then [] else [s[0]] + CStr(s[1..])
  }

  predicate SameFolded(buf: seq<Byte>, name: seq<Byte>) {
    Fold(CStr(buf)) == Fold(name)
  }

  lemma {:induction false} FoldCons(b: Byte, s: seq<Byte>)
    ensures Fold([b] + s) == [Lower(b)] + Fold(s)
  {
  }

  lemma {:induction false} CompareStep(a: seq<Byte>, b: seq<Byte>)
    requires a != [] && a[0] != 0 && b != []
    ensures SameFolded(a, b) <==> Lower(a[0]) == Lower(b[0]) && SameFolded(a[1..], b[1..])
  {
    FoldCons(a[0], CStr(a[1..]));
    FoldCons(b[0], b[1..]);
    assert b == [b[0]] + b[1..];
    var x, y := Fold(CStr(a[1..])), Fold(b[1..]);
    assert ([Lower(a[0])] + x)[1..] == x && ([Lower(b[0])] + y)[1..] == y;
  }

  lemma {:induction false} CompareEnd(a: seq<Byte>, b: seq<Byte>)
    requires a == [] || a[0] == 0 || b == []
    ensures SameFolded(a, b) <==> (a == [] || a[0] == 0) && b == []
  {
  }

  predicate Matches(p: Packed, name: CString) {
    SameFolded(Decoded(p), name)
  }

  /** The driver's name test: same string up to ASCII case. */
  method NameMatches(p: Packed, name: CString) returns (b: bool)
    requires |p.name| == 8 && |p.ext| == 3
    ensures b == Matches(p, name)
  {
    hide CStr, Fold, Decoded;
    var decoded := Decode83(p);
    var i := 0;
    assert decoded[0..] == decoded && name[0..] == name;
    while i < |decoded| && decoded[i] != 0 && i < |name|
      invariant 0 <= i <= |decoded| && i <= |name|
      invariant Matches(p, name) == SameFolded(decoded[i..], name[i..])
    {
      var ca, cb := decoded[i], name[i];
      if IsUpper(ca) {
        ca := ca + 32;
      }
      if IsUpper(cb) {
        cb := cb + 32;
      }
      CompareStep(decoded[i..], name[i..]);
      if ca != cb {
        return false;
      }
      i := i + 1;
    }
    CompareEnd(decoded[i..], name[i..]);
    b := (i == |decoded| || decoded[i] == 0) && i == |name|;
  }

  // ---- when a name survives ----

  predicate FitsPart(part: seq<Byte>, n: nat) {
    |part| <= n && (part == [] || part[|part| - 1] != SPACE)
  }

  /** At most eight characters before the first dot; after it, if there is one, one to three;
      neither part ending in a space. */
  predicate Fits83(name: seq<Byte>) {
    FitsPart(Base(name), 8) && (DotIndex(name) < |name| ==> Ext(name) != [] && FitsPart(Ext(name), 3))
  }

  predicate MixesCase(s: seq<Byte>) { HasUpper(s) && HasLower(s) }

  lemma {:induction false} TrimUnique(s: seq<Byte>, k: nat)
    requires k <= |s| && (k > 0 ==> s[k - 1] != SPACE) && forall i :: k <= i < |s| ==> s[i] == SPACE
    ensures Trim(s) == s[..k]
  {
  }

  /** Packing a part and trimming it gives its first `n` characters in upper case, less trailing spaces. */
  lemma {:induction false} PartPacked(part: seq<Byte>, n: nat)
    ensures Trim(Pad(UpperAll(part), n)) == UpperAll(Trim(Take(part, n)))
  {
    var t := Trim(Take(part, n));
    TrimUnique(Pad(UpperAll(part), n), |t|);
  }

  lemma {:induction false} FoldUpper(s: seq<Byte>)
    ensures Fold(UpperAll(s)) == Fold(s)
  {
  }

  lemma {:induction false} FoldCased(lower: bool, s: seq<Byte>)
    ensures Fold(Cased(lower, s)) == Fold(s)
  {
  }

  /** A name from its two parts; `ext` empty means no dot. */
  function Join(base: seq<Byte>, ext: seq<Byte>): seq<Byte> {
    if ext == [] then base else base + [DOT] + ext
  }

  lemma {:induction false} FoldJoin(base: seq<Byte>, ext: seq<Byte>)
    ensures Fold(Join(base, ext)) == Join(Fold(base), Fold(ext))
  {
  }

  /** What comes back, up to case, from packing and unpacking any name. */
  lemma {:induction false} DecodeEncodeFolded(name: seq<Byte>)
    ensures Fold(Decoded(Encoded(name))) == Join(Fold(Trim(Take(Base(name), 8))), Fold(Trim(Take(Ext(name), 3))))
  {
    var p := Encoded(name);
    var b, x := Trim(Take(Base(name), 8)), Trim(Take(Ext(name), 3));
    PartPacked(Base(name), 8);
    PartPacked(Ext(name), 3);
    var lb, lx := p.flags / LOWER_BASE % 2 == 1, p.flags / LOWER_EXT % 2 == 1;
    FoldUpper(b);
    FoldUpper(x);
    FoldCased(lb, UpperAll(b));
    FoldCased(lx, UpperAll(x));
    FoldJoin(Cased(lb, UpperAll(b)), Cased(lx, UpperAll(x)));
  }

  lemma {:induction false} JoinSplit(b: seq<Byte>, x: seq<Byte>)
    requires DOT !in b
    ensures Base(Join(b, x)) == b && Ext(Join(b, x)) == x
  {
    var s := Join(b, x);
    assert forall i :: 0 <= i < |b| ==> s[i] == b[i] != DOT;
    assert x != [] ==> s[|b|] == DOT;
    assert DotIndex(s) == |b|;
  }

  lemma {:induction false} JoinUnique(b: seq<Byte>, x: seq<Byte>, c: seq<Byte>, y: seq<Byte>)
    requires DOT !in b && DOT !in c && Join(b, x) == Join(c, y)
    ensures b == c && x == y
  {
    JoinSplit(b, x);
    JoinSplit(c, y);
  }

  lemma {:induction false} NameIsJoin(name: seq<Byte>)
    requires DotIndex(name) < |name| ==> Ext(name) != []
    ensures name == Join(Base(name), Ext(name))
  {
  }

  lemma {:induction false} NoDotInBase(name: seq<Byte>, b: seq<Byte>)
    requires b <= Base(name)
    ensures DOT !in Fold(b) && DOT !in Fold(Base(name))
  {
  }

  lemma {:induction false} SurvivesIffFits(part: seq<Byte>, n: nat)
    ensures |Trim(Take(part, n))| == |part| <==> FitsPart(part, n)
    ensures FitsPart(part, n) ==> Trim(Take(part, n)) == part
  {
  }

  /** A name survives packing and unpacking, up to case, exactly when it fits the 8.3 form. */
  lemma {:induction false} RoundTripFolded(name: seq<Byte>)
    ensures Fold(Decoded(Encoded(name))) == Fold(name) <==> Fits83(name)
  {
    var b, x := Trim(Take(Base(name), 8)), Trim(Take(Ext(name), 3));
    DecodeEncodeFolded(name);
    if DotIndex(name) < |name| && Ext(name) == [] {
      assert x == [];
      assert |Fold(name)| == |name| > |Base(name)| >= |Fold(b)|;
    } else {
      NameIsJoin(name);
      FoldJoin(Base(name), Ext(name));
      NoDotInBase(name, b);
      if Fold(Decoded(Encoded(name))) == Fold(name) {
        JoinUnique(Fold(b), Fold(x), Fold(Base(name)), Fold(Ext(name)));
        SurvivesIffFits(Base(name), 8);
        SurvivesIffFits(Ext(name), 3);
      } else {
        SurvivesIffFits(Base(name), 8);
        SurvivesIffFits(Ext(name), 3);
      }
    }
  }

  /** The case flag restores a part exactly when the part does not mix cases. */
  lemma {:induction false} PartRestored(part: seq<Byte>)
    ensures Cased(HasLower(part), UpperAll(part)) == part <==> !MixesCase(part)
  {
  }

  lemma {:induction false} NoDotCased(lower: bool, b: seq<Byte>)
    requires DOT !in Fold(b)
    ensures DOT !in Cased(lower, UpperAll(b)) && DOT !in b
  {
    forall i | 0 <= i < |b| ensures Cased(lower, UpperAll(b))[i] != DOT && b[i] != DOT {
      assert Fold(b)[i] != DOT;
    }
  }

  lemma {:induction false} DecodedFitting(name: seq<Byte>)
    requires Fits83(name)
    ensures var b, x := Base(name), Ext(name);
            Decoded(Encoded(name)) == Join(Cased(HasLower(b), UpperAll(b)), Cased(HasLower(x), UpperAll(x)))
  {
    var b, x := Base(name), Ext(name);
    SurvivesIffFits(b, 8);
    SurvivesIffFits(x, 3);
    PartPacked(b, 8);
    PartPacked(x, 3);
    hide Trim, UpperAll, Fold, HasLower, Pad;
    assert Take(b, 8) == b && Take(x, 3) == x;
    var f := Encoded(name).flags;
    assert f == (if HasLower(b) then LOWER_BASE else 0) + (if HasLower(x) then LOWER_EXT else 0);
    assert (f / LOWER_BASE % 2 == 1) == HasLower(b) && (f / LOWER_EXT % 2 == 1) == HasLower(x);
  }

  /** A name comes back unchanged exactly when it fits the form and neither part mixes cases. */
  lemma {:induction false} RoundTripExact(name: seq<Byte>)
    ensures Decoded(Encoded(name)) == name <==>
            Fits83(name) && !MixesCase(Base(name)) && !MixesCase(Ext(name))
  {
    RoundTripFolded(name);
    if Fits83(name) {
      var b, x := Base(name), Ext(name);
      SurvivesIffFits(b, 8);
      SurvivesIffFits(x, 3);
      PartPacked(b, 8);
      PartPacked(x, 3);
      PartRestored(b);
      PartRestored(x);
      NameIsJoin(name);
      NoDotInBase(name, b);
      DecodedFitting(name);
      var c, y := Cased(HasLower(b), UpperAll(b)), Cased(HasLower(x), UpperAll(x));
      NoDotCased(HasLower(b), b);
      if Decoded(Encoded(name)) == name {
        JoinUnique(c, y, b, x);
      }
    }
  }

  lemma {:induction false} CStrWhole(s: seq<Byte>)
    requires 0 !in s
    ensures CStr(s) == s
  {
    if s != [] {
      CStrWhole(s[1..]);
    }
  }

  /** A fitting name's entry is found under that name, in any case, and under no other. */
  lemma {:induction false} MatchesOwnName(name: CString, n: CString)
    requires Fits83(name)
    ensures Matches(Encoded(name), n) <==> Fold(n) == Fold(name)
  {
    RoundTripFolded(name);
    var d := Decoded(Encoded(name));
    forall i | 0 <= i < |d| ensures d[i] != 0 {
      assert Fold(d)[i] == Fold(name)[i] == Lower(name[i]);
    }
    CStrWhole(d);
  }
}
