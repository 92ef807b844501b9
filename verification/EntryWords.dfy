/** The 64-bit layout behind the page-table model: entries and virtual addresses as numbers. */
module EntryWords {
  import opened PageTables
  import opened UserSpaces

  predicate InRange(w: Word) { w.frame < 0x100_0000_0000 && w.low < 0x100 && w.high < 0x800 }

  function Bit(b: bool): nat { if b then 1 else 0 }

  /** The flag bits 0..11, lowest first: present, write, user, four of `low`, large page, four of `low`. */
  function Flags(w: Word): nat
    requires w.low < 0x100
  {
    Bit(w.present) + 2 * (Bit(w.write) + 2 * (Bit(w.user) + 2 * (w.low % 16 + 16 * (Bit(w.huge) + 2 * (w.low / 16)))))
  }

  /** The word, lowest bits first: flags, frame number, bits 52..62, bit 63. */
  function Encode(w: Word): nat
    requires InRange(w)
  {
    Flags(w) + 0x1000 * (w.frame + 0x100_0000_0000 * (w.high + 0x800 * Bit(w.nx)))
  }

  function Decode(n: nat): Word
    requires n < 0x1_0000_0000_0000_0000
  {
    var f, a := n % 0x1000, n / 0x1000;
    var f1 := f / 2;
    var f2 := f1 / 2;
    var f3 := f2 / 2;
    var f4 := f3 / 16;
    var h := a / 0x100_0000_0000;
    Word(a % 0x100_0000_0000, f % 2 == 1, f1 % 2 == 1, f2 % 2 == 1, f4 % 2 == 1,
         h / 0x800 == 1, f3 % 16 + 16 * (f4 / 2), h % 0x800)
  }

  lemma {:induction false} FlagsDecode(w: Word)
    requires w.low < 0x100
    ensures Flags(w) < 0x1000
    ensures var f := Flags(w);
            var f1 := f / 2;
            var f2 := f1 / 2;
            var f3 := f2 / 2;
            var f4 := f3 / 16;
            f % 2 == Bit(w.present) && f1 % 2 == Bit(w.write) && f2 % 2 == Bit(w.user) &&
            f3 % 16 == w.low % 16 && f4 % 2 == Bit(w.huge) && f4 / 2 == w.low / 16
  {
    var f4 := Bit(w.huge) + 2 * (w.low / 16);
    var f3 := w.low % 16 + 16 * f4;
    var f2 := Bit(w.user) + 2 * f3;
    var f1 := Bit(w.write) + 2 * f2;
    var f := Bit(w.present) + 2 * f1;
    assert f / 2 == f1 && f1 / 2 == f2 && f2 / 2 == f3 && f3 / 16 == f4;
  }

  /** Every entry is one word, and back. */
  lemma {:induction false} DecodeEncode(w: Word)
    requires InRange(w)
    ensures Encode(w) < 0x1_0000_0000_0000_0000 && Decode(Encode(w)) == w
  {
    FlagsDecode(w);
    hide Flags;
    var h := w.high + 0x800 * Bit(w.nx);
    var a := w.frame + 0x100_0000_0000 * h;
    assert Encode(w) / 0x1000 == a && Encode(w) % 0x1000 == Flags(w);
    assert a / 0x100_0000_0000 == h && a % 0x100_0000_0000 == w.frame;
    assert h / 0x800 == Bit(w.nx) && h % 0x800 == w.high;
  }

  lemma {:induction false} FlagsEncode(n: nat)
    requires n < 0x1_0000_0000_0000_0000
    ensures Decode(n).low < 0x100 && Flags(Decode(n)) == n % 0x1000
  {
    var w, f := Decode(n), n % 0x1000;
    var f1 := f / 2;
    var f2 := f1 / 2;
    var f3 := f2 / 2;
    var f4 := f3 / 16;
    assert f < 0x1000 && f1 < 0x800 && f2 < 0x400 && f3 < 0x200 && f4 < 0x20;
    assert w.low % 16 == f3 % 16 && w.low / 16 == f4 / 2;
    assert Bit(w.present) == f % 2 && Bit(w.write) == f1 % 2 && Bit(w.user) == f2 % 2 && Bit(w.huge) == f4 % 2;
  }

  /** Every word is one entry, and back. */
  lemma {:induction false} EncodeDecode(n: nat)
    requires n < 0x1_0000_0000_0000_0000
    ensures InRange(Decode(n)) && Encode(Decode(n)) == n
  {
    FlagsEncode(n);
    hide Flags;
    var w, a := Decode(n), n / 0x1000;
    var h := a / 0x100_0000_0000;
    assert a < 0x10_0000_0000_0000 && h < 0x1000;
    assert Bit(w.nx) == h / 0x800 && w.high == h % 0x800 && w.frame == a % 0x100_0000_0000;
    assert a == w.frame + 0x100_0000_0000 * h;
  }

  /** The kernel's two ways to take an entry's address: bits 12..51, and everything above the flags. */
  lemma {:induction false} Addresses(w: Word)
    requires InRange(w)
    ensures Encode(w) / 0x1000 % 0x100_0000_0000 == w.frame
    ensures Encode(w) / 0x1000 == RawFrame(w)
  {
    FlagsDecode(w);
    hide Flags;
    var a := w.frame + 0x100_0000_0000 * (w.high + 0x800 * Bit(w.nx));
    assert Encode(w) / 0x1000 == a;
  }

  /** The indices and the page offset of a virtual address. */
  function VaOf(virt: nat): (v: Va)
    ensures IsVa(v)
  {
    Va(virt / 0x80_0000_0000 % 512, virt / 0x4000_0000 % 512,
       virt / 0x20_0000 % 512, virt / 0x1000 % 512, virt % 0x1000)
  }

  lemma {:induction false} UniqueDigits(v: Va, w: Va)
    requires IsVa(v) && IsVa(w)
    ensures SamePage(v, w) <==>
            ((v.i4 * 512 + v.i3) * 512 + v.i2) * 512 + v.i1 == ((w.i4 * 512 + w.i3) * 512 + w.i2) * 512 + w.i1
  {
  }

  lemma {:induction false} LowPage(x: nat)
    ensures x % 0x1_0000_0000_0000 / 0x1000 == x / 0x1000 % 0x10_0000_0000
  {
  }

  lemma {:induction false} Shifts(x: nat)
    ensures x / 0x20_0000 == x / 0x1000 / 512
    ensures x / 0x4000_0000 == x / 0x1000 / 512 / 512
    ensures x / 0x80_0000_0000 == x / 0x1000 / 512 / 512 / 512
  {
  }

  lemma {:induction false} Digits(p: nat)
    ensures var p2 := p / 512;
            var p3 := p2 / 512;
            p % 0x10_0000_0000 == ((p3 / 512 % 512 * 512 + p3 % 512) * 512 + p2 % 512) * 512 + p % 512
  {
  }

  lemma {:induction false} PageNumber(x: nat)
    ensures var v := VaOf(x);
            x % 0x1_0000_0000_0000 / 0x1000 == ((v.i4 * 512 + v.i3) * 512 + v.i2) * 512 + v.i1
  {
    var p1 := x / 0x1000;
    var p2 := p1 / 512;
    var p3 := p2 / 512;
    var p4 := p3 / 512;
    Shifts(x);
    Digits(p1);
    LowPage(x);
  }

  /** Two addresses have the same four indices exactly when they lie in the same page of the 48-bit space. */
  lemma {:induction false} SamePageIff(x: nat, y: nat)
    ensures SamePage(VaOf(x), VaOf(y)) <==> x % 0x1_0000_0000_0000 / 0x1000 == y % 0x1_0000_0000_0000 / 0x1000
  {
    PageNumber(x);
    PageNumber(y);
    hide VaOf;
    UniqueDigits(VaOf(x), VaOf(y));
  }
}
