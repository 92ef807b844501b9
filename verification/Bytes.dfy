// Bytes, little-endian words and buffer splicing shared by the storage models.
module Bytes {

  type Byte = b: int | 0 <= b < 256

  /** The bytes `b` written over `s` from position `o` on. */
  function Splice<T>(s: seq<T>, o: nat, b: seq<T>): (r: seq<T>)
    requires o + |b| <= |s|
    ensures |r| == |s|
  {
    s[..o] + b + s[o + |b|..]
  }

  /** `n` zero bytes. */
  function Zeros(n: nat): (r: seq<Byte>)
    ensures |r| == n
    ensures forall k :: 0 <= k < n ==> r[k] == 0
  {
    seq(n, _ => 0)
  }

  /** Bytes `offset .. offset + len` of `s`, as far as they exist. */
  function Window(s: seq<Byte>, offset: nat, len: nat): seq<Byte> {
    if offset >= |s| then [] else if offset + len >= |s| then s[offset..] else s[offset..offset + len]
  }

  /** The 32-bit little-endian word at offset `o`. */
  function GetU32(s: seq<Byte>, o: nat): (v: nat)
    requires o + 4 <= |s|
    ensures v < 0x1_0000_0000
  {
    var b0: nat, b1: nat, b2: nat, b3: nat := s[o], s[o + 1], s[o + 2], s[o + 3];
    b0 + 0x100 * b1 + 0x1_0000 * b2 + 0x100_0000 * b3
  }

  /** The four bytes of a 32-bit word, low byte first. */
  function LittleEndian(v: nat): (r: seq<Byte>)
    requires v < 0x1_0000_0000
    ensures |r| == 4 && GetU32(r, 0) == v
  {
    var v1 := v / 0x100;
    var v2 := v1 / 0x100;
    [v % 0x100, v1 % 0x100, v2 % 0x100, v2 / 0x100]
  }

  // ---- concatenation of equally long pieces ----

  /** The product `n * m`, by repeated addition: the layout proofs need only its recursion. */
  function Mul(n: nat, m: nat): nat {
    if n == 0 then 0 else Mul(n - 1, m) + m
  }

  lemma {:induction false} MulIsProduct(n: nat, m: nat)
    ensures Mul(n, m) == n * m
  {
    if n > 0 {
      MulIsProduct(n - 1, m);
    }
  }

  lemma {:induction false} MulStep(a: nat, b: nat, m: nat)
    requires a < b
    ensures Mul(a, m) + m <= Mul(b, m)
  {
    if a + 1 < b {
      MulStep(a, b - 1, m);
    }
  }

  ghost predicate Uniform(ss: seq<seq<Byte>>, m: nat) {
    forall i :: 0 <= i < |ss| ==> |ss[i]| == m
  }

  function Concat(ss: seq<seq<Byte>>): seq<Byte> {
    if ss == [] then [] else ss[0] + Concat(ss[1..])
  }

  lemma {:induction false} ConcatLength(ss: seq<seq<Byte>>, m: nat)
    requires Uniform(ss, m)
    ensures |Concat(ss)| == Mul(|ss|, m)
  {
    if ss != [] {
      ConcatLength(ss[1..], m);
    }
  }

  lemma {:induction false} ConcatAppend(a: seq<seq<Byte>>, b: seq<seq<Byte>>)
    ensures Concat(a + b) == Concat(a) + Concat(b)
  {
    if a == [] {
      assert a + b == b;
    } else {
      assert (a + b)[0] == a[0] && (a + b)[1..] == a[1..] + b;
      ConcatAppend(a[1..], b);
    }
  }

  lemma {:induction false} SpliceLeft<T>(a: seq<T>, b: seq<T>, o: nat, x: seq<T>)
    requires o + |x| <= |a|
    ensures Splice(a + b, o, x) == Splice(a, o, x) + b
  {
  }

  lemma {:induction false} SpliceRight<T>(a: seq<T>, b: seq<T>, o: nat, x: seq<T>)
    requires o + |x| <= |b|
    ensures Splice(a + b, |a| + o, x) == a + Splice(b, o, x)
  {
  }

  /** Patching one piece is a splice on the whole. */
  lemma {:induction false} ConcatPatch(ss: seq<seq<Byte>>, m: nat, n: nat, o: nat, x: seq<Byte>)
    requires Uniform(ss, m) && n < |ss| && o + |x| <= m
    ensures Mul(n, m) + o + |x| <= |Concat(ss)|
    ensures Concat(ss[n := Splice(ss[n], o, x)]) == Splice(Concat(ss), Mul(n, m) + o, x)
  {
    var ss' := ss[n := Splice(ss[n], o, x)];
    if n == 0 {
      assert ss'[1..] == ss[1..];
      SpliceLeft(ss[0], Concat(ss[1..]), o, x);
    } else {
      assert ss'[1..] == ss[1..][n - 1 := Splice(ss[n], o, x)];
      ConcatPatch(ss[1..], m, n - 1, o, x);
      SpliceRight(ss[0], Concat(ss[1..]), Mul(n - 1, m) + o, x);
    }
  }

  /** Each piece is found at its place in the whole. */
  lemma {:induction false} ConcatAt(ss: seq<seq<Byte>>, m: nat, n: nat, o: nat, k: nat)
    requires Uniform(ss, m) && n < |ss| && o + k <= m
    ensures Mul(n, m) + o + k <= |Concat(ss)|
    ensures Concat(ss)[Mul(n, m) + o..Mul(n, m) + o + k] == ss[n][o..o + k]
  {
    if n > 0 {
      ConcatAt(ss[1..], m, n - 1, o, k);
    }
  }
}
