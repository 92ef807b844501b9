/** The initial stack of a user program, and a reader that recovers what was put there. */
module StackImage {
  import opened Bytes
  import opened Options

  const STACK_BUF_SIZE: nat := 4096
  const MAX_STACK_STRINGS: nat := 32
  const USER_STACK_TOP: nat := 0x7F_FFFF_F000
  const AT_NULL: nat := 0
  const AT_PAGESZ: nat := 6
  const AT_ENTRY: nat := 9
  const AT_UID: nat := 11
  const AT_EUID: nat := 12
  const AT_GID: nat := 13
  const AT_EGID: nat := 14

  /** A string without its terminator. */
  type Text = t: seq<Byte> | forall i :: 0 <= i < |t| ==> t[i] != 0

  // ---- words ----

  function Limit(n: nat): nat { if n == 0 then 1 else 256 * Limit(n - 1) }

  function Encode(v: nat, n: nat): (r: seq<Byte>)
    ensures |r| == n
  {
    if n == 0 then [] else [v % 256] + Encode(v / 256, n - 1)
  }

  function Decode(s: seq<Byte>): nat {
    if s == [] then 0 else var b: nat := s[0]; b + 256 * Decode(s[1..])
  }

  lemma {:induction false} DecodeEncode(v: nat, n: nat)
    requires v < Limit(n)
    ensures Decode(Encode(v, n)) == v
  {
    if n > 0 {
      DecodeEncode(v / 256, n - 1);
      assert Encode(v, n)[1..] == Encode(v / 256, n - 1);
    }
  }

  const WORD: nat := 0x1_0000_0000_0000_0000

  lemma {:induction false} EightBytes(v: nat)
    requires v < WORD
    ensures Decode(Encode(v, 8)) == v
  {
    assert Limit(4) == 0x1_0000_0000;
    assert Limit(8) == WORD;
    DecodeEncode(v, 8);
  }

  /** The words as consecutive bytes. */
  function Flat(ws: seq<nat>): (r: seq<Byte>)
    ensures |r| == 8 * |ws|
  {
    if ws == [] then [] else Encode(ws[0], 8) + Flat(ws[1..])
  }

  lemma {:induction false} FlatAppend(a: seq<nat>, b: seq<nat>)
    ensures Flat(a + b) == Flat(a) + Flat(b)
  {
    if a == [] {
      assert a + b == b;
    } else {
      assert (a + b)[1..] == a[1..] + b;
      FlatAppend(a[1..], b);
    }
  }

  // ---- the reader ----

  /** What a program finds on its stack. */
  datatype Start = Start(args: seq<Text>, env: seq<Text>, aux: seq<(nat, nat)>)

  /** The `k`th word above the stack pointer. */
  function WordAt(img: seq<Byte>, k: nat): Option<nat> {
    if 8 * k + 8 <= |img| then Some(Decode(img[8 * k..8 * k + 8])) else None
  }

  /** The bytes from `i` up to a zero. */
  function TextAt(img: seq<Byte>, i: nat): Option<Text>
    decreases |img| - i
  {
    if i >= |img| then None
    else if img[i] == 0 then Some([])
    else
      match TextAt(img, i + 1)
      case None => None
      case Some(t) => Some([img[i]] + t)
  }

  /** The string the `k`th word points to, in an image that starts at address `sp`. */
  function StringAt(img: seq<Byte>, sp: nat, k: nat): Option<Text> {
    match WordAt(img, k)
    case None => None
    case Some(va) => if va < sp then None else TextAt(img, va - sp)
  }

  /** The strings of `n` pointers from word `k` on. */
  function ReadArgs(img: seq<Byte>, sp: nat, k: nat, n: nat): Option<seq<Text>>
    decreases n
  {
    if n == 0 then Some([])
    else
      match (StringAt(img, sp, k), ReadArgs(img, sp, k + 1, n - 1))
      case (Some(t), Some(ts)) => Some([t] + ts)
      case _ => None
  }

  /** The strings of the pointers from word `k` up to a null pointer. */
  function ReadEnv(img: seq<Byte>, sp: nat, k: nat): Option<seq<Text>>
    decreases |img| - 8 * k
  {
    match WordAt(img, k)
    case None => None
    case Some(va) =>
      if va == 0 then Some([])
      else
        match (StringAt(img, sp, k), ReadEnv(img, sp, k + 1))
        case (Some(t), Some(ts)) => Some([t] + ts)
        case _ => None
  }

  /** The pairs from word `k` up to one with type AT_NULL. */
  function ReadAux(img: seq<Byte>, k: nat): Option<seq<(nat, nat)>>
    decreases |img| - 8 * k
  {
    match (WordAt(img, k), WordAt(img, k + 1))
    case (Some(a), Some(v)) =>
      if a == AT_NULL then Some([])
      else
        (match ReadAux(img, k + 2)
         case None => None
         case Some(ps) => Some([(a, v)] + ps))
    case _ => None
  }

  /** Walks up from the stack pointer: count, arguments, null, environment to a null, auxiliary pairs. */
  function ReadStart(img: seq<Byte>, sp: nat): Option<Start> {
    match WordAt(img, 0)
    case None => None
    case Some(argc) =>
      match (ReadArgs(img, sp, 1, argc), WordAt(img, argc + 1), ReadEnv(img, sp, argc + 2))
      case (Some(args), Some(0), Some(env)) =>
        (match ReadAux(img, argc + |env| + 3)
         case None => None
         case Some(aux) => Some(Start(args, env, aux)))
      case _ => None
  }

  // ---- strings in place ----

  /** `text` with its terminator stands `t` bytes below the end of `b`. */
  ghost predicate Holds(b: seq<Byte>, t: nat, text: Text) {
    |text| + 1 <= t <= |b| && b[|b| - t..|b| - t + |text| + 1] == text + [0]
  }

  lemma {:induction false} TextReads(img: seq<Byte>, i: nat, text: Text)
    requires i + |text| + 1 <= |img| && img[i..i + |text| + 1] == text + [0]
    ensures TextAt(img, i) == Some(text)
    decreases |text|
  {
    var s := img[i..i + |text| + 1];
    if text == [] {
      assert img[i] == s[0] == 0;
    } else {
      assert img[i] == s[0] == text[0];
      assert img[i + 1..i + 1 + |text[1..]| + 1] == s[1..] == text[1..] + [0];
      TextReads(img, i + 1, text[1..]);
      assert [text[0]] + text[1..] == text;
    }
  }

  // ---- reading back a sequence of words ----

  lemma {:induction false} WordIs(ws: seq<nat>, tail: seq<Byte>, k: nat)
    requires k < |ws| && ws[k] < WORD
    ensures WordAt(Flat(ws) + tail, k) == Some(ws[k])
  {
    var img := Flat(ws) + tail;
    var rest := Flat(ws[1..]) + tail;
    assert img == Encode(ws[0], 8) + rest;
    if k == 0 {
      assert img[0..8] == Encode(ws[0], 8);
      EightBytes(ws[0]);
    } else {
      WordIs(ws[1..], tail, k - 1);
      assert img[8 * k..8 * k + 8] == rest[8 * (k - 1)..8 * (k - 1) + 8];
    }
  }

  lemma {:induction false} PointerReads(img: seq<Byte>, sp: nat, k: nat, t: nat, text: Text)
    requires sp + |img| == USER_STACK_TOP && Holds(img, t, text) && WordAt(img, k) == Some(USER_STACK_TOP - t)
    ensures StringAt(img, sp, k) == Some(text)
  {
    TextReads(img, |img| - t, text);
  }

  lemma {:induction false} ArgsRead(img: seq<Byte>, sp: nat, k: nat, texts: seq<Text>)
    requires forall i :: k <= i < k + |texts| ==> StringAt(img, sp, i) == Some(texts[i - k])
    ensures ReadArgs(img, sp, k, |texts|) == Some(texts)
    decreases |texts|
  {
    if texts != [] {
      ArgsRead(img, sp, k + 1, texts[1..]);
      assert [texts[0]] + texts[1..] == texts;
    }
  }

  lemma {:induction false} EnvReads(img: seq<Byte>, sp: nat, k: nat, texts: seq<Text>)
    requires forall i :: k <= i < k + |texts| ==>
      StringAt(img, sp, i) == Some(texts[i - k]) && WordAt(img, i) != Some(0)
    requires WordAt(img, k + |texts|) == Some(0)
    ensures ReadEnv(img, sp, k) == Some(texts)
    decreases |texts|
  {
    if texts != [] {
      EnvReads(img, sp, k + 1, texts[1..]);
      assert [texts[0]] + texts[1..] == texts;
    }
  }

  /** The auxiliary vector without its end. */
  function Auxv(entry: nat): seq<(nat, nat)> {
    [(AT_UID, 0), (AT_EUID, 0), (AT_GID, 0), (AT_EGID, 0), (AT_ENTRY, entry), (AT_PAGESZ, 0x1000)]
  }

  /** Pairs as words, ended by AT_NULL. */
  function PairWords(ps: seq<(nat, nat)>): (r: seq<nat>)
    ensures |r| == 2 * |ps| + 2
  {
    if ps == [] then [AT_NULL, 0] else [ps[0].0, ps[0].1] + PairWords(ps[1..])
  }

  lemma {:induction false} AuxReads(img: seq<Byte>, k: nat, ps: seq<(nat, nat)>)
    requires forall i :: 0 <= i < |ps| ==> ps[i].0 != AT_NULL
    requires forall i :: k <= i < k + 2 * |ps| + 2 ==> WordAt(img, i) == Some(PairWords(ps)[i - k])
    ensures ReadAux(img, k) == Some(ps)
    decreases |ps|
  {
    var ws := PairWords(ps);
    assert WordAt(img, k) == Some(ws[0]) && WordAt(img, k + 1) == Some(ws[1]);
    if ps != [] {
      forall i | k + 2 <= i < k + 2 + 2 * |ps[1..]| + 2 ensures WordAt(img, i) == Some(PairWords(ps[1..])[i - k - 2]) {
        assert WordAt(img, i) == Some(ws[i - k]);
      }
      AuxReads(img, k + 2, ps[1..]);
      assert [ps[0]] + ps[1..] == ps;
    }
  }

  // ---- the whole image ----

  /** The pointers are user addresses of the strings in an image ending at the top of the stack. */
  ghost predicate Placed(b: seq<Byte>, ptrs: seq<nat>, texts: seq<Text>) {
    |ptrs| == |texts| &&
    forall i :: 0 <= i < |ptrs| ==> 0 < ptrs[i] <= USER_STACK_TOP && Holds(b, USER_STACK_TOP - ptrs[i], texts[i])
  }

  function StartWords(ap: seq<nat>, ep: seq<nat>, entry: nat): seq<nat> {
    [|ap|] + ap + [0] + ep + [0] + PairWords(Auxv(entry))
  }

  lemma {:induction false} StartWordsAt(ap: seq<nat>, ep: seq<nat>, entry: nat)
    ensures var ws := StartWords(ap, ep, entry);
            |ws| == |ap| + |ep| + 17 && ws[0] == |ap| && ws[|ap| + 1] == 0 && ws[|ap| + |ep| + 2] == 0 &&
            (forall i :: 1 <= i < 1 + |ap| ==> ws[i] == ap[i - 1]) &&
            (forall i :: |ap| + 2 <= i < |ap| + 2 + |ep| ==> ws[i] == ep[i - |ap| - 2]) &&
            (forall i :: |ap| + |ep| + 3 <= i < |ws| ==> ws[i] == PairWords(Auxv(entry))[i - |ap| - |ep| - 3])
  {
  }

  lemma {:induction false} SmallPairs(ps: seq<(nat, nat)>)
    requires forall i :: 0 <= i < |ps| ==> ps[i].0 < WORD && ps[i].1 < WORD
    ensures forall i :: 0 <= i < |PairWords(ps)| ==> PairWords(ps)[i] < WORD
  {
    if ps != [] {
      SmallPairs(ps[1..]);
    }
  }

  lemma {:induction false} PairsSmall(entry: nat)
    requires entry < WORD
    ensures forall i :: 0 <= i < 14 ==> PairWords(Auxv(entry))[i] < WORD
  {
    assert |PairWords(Auxv(entry))| == 14;
    SmallPairs(Auxv(entry));
  }

  /** The image starts with these words. */
  ghost predicate Begins(img: seq<Byte>, ws: seq<nat>) {
    forall i :: 0 <= i < |ws| ==> WordAt(img, i) == Some(ws[i])
  }

  lemma {:induction false} FlatBegins(ws: seq<nat>, tail: seq<Byte>)
    requires forall i :: 0 <= i < |ws| ==> ws[i] < WORD
    ensures Begins(Flat(ws) + tail, ws)
  {
    hide WordAt, Flat;
    forall i | 0 <= i < |ws| ensures WordAt(Flat(ws) + tail, i) == Some(ws[i]) {
      WordIs(ws, tail, i);
    }
  }

  lemma {:induction false} StartWordsSmall(ap: seq<nat>, ep: seq<nat>, entry: nat)
    requires entry < WORD && |ap| < WORD
    requires forall i :: 0 <= i < |ap| ==> ap[i] < WORD
    requires forall i :: 0 <= i < |ep| ==> ep[i] < WORD
    ensures var ws := StartWords(ap, ep, entry); forall i :: 0 <= i < |ws| ==> ws[i] < WORD
  {
    PairsSmall(entry);
    hide PairWords;
  }

  lemma {:induction false} StringsRead(img: seq<Byte>, sp: nat, ws: seq<nat>, k: nat, ptrs: seq<nat>, texts: seq<Text>)
    requires Begins(img, ws) && sp + |img| == USER_STACK_TOP && Placed(img, ptrs, texts) && k + |ptrs| <= |ws|
    requires forall i :: k <= i < k + |ptrs| ==> ws[i] == ptrs[i - k]
    ensures forall i :: k <= i < k + |texts| ==> StringAt(img, sp, i) == Some(texts[i - k]) && WordAt(img, i) != Some(0)
  {
    forall i | k <= i < k + |texts| ensures StringAt(img, sp, i) == Some(texts[i - k]) && WordAt(img, i) != Some(0) {
      assert WordAt(img, i) == Some(ws[i]) && ptrs[i - k] > 0;
      hide WordAt, StringAt, Holds;
      PointerReads(img, sp, i, USER_STACK_TOP - ptrs[i - k], texts[i - k]);
    }
  }

  lemma {:induction false} PairsRead(img: seq<Byte>, ws: seq<nat>, k: nat, entry: nat)
    requires Begins(img, ws) && k + 14 == |ws| && forall i :: k <= i < |ws| ==> ws[i] == PairWords(Auxv(entry))[i - k]
    ensures ReadAux(img, k) == Some(Auxv(entry))
  {
    hide PairWords, WordAt;
    forall i | k <= i < k + 14 ensures WordAt(img, i) == Some(PairWords(Auxv(entry))[i - k]) {
      assert WordAt(img, i) == Some(ws[i]);
    }
    AuxReads(img, k, Auxv(entry));
  }

  lemma {:induction false} PlacedSmall(img: seq<Byte>, ptrs: seq<nat>, texts: seq<Text>)
    requires Placed(img, ptrs, texts)
    ensures forall i :: 0 <= i < |ptrs| ==> ptrs[i] < WORD
  {
  }

  lemma {:induction false} WordsBegin(img: seq<Byte>, ap: seq<nat>, args: seq<Text>, ep: seq<nat>, env: seq<Text>,
                                      entry: nat, tail: seq<Byte>)
    requires img == Flat(StartWords(ap, ep, entry)) + tail
    requires Placed(img, ap, args) && Placed(img, ep, env) && entry < WORD && |ap| < WORD
    ensures Begins(img, StartWords(ap, ep, entry)) && |args| == |ap| && |env| == |ep|
  {
    PlacedSmall(img, ap, args);
    PlacedSmall(img, ep, env);
    StartWordsSmall(ap, ep, entry);
    hide StartWords;
    FlatBegins(StartWords(ap, ep, entry), tail);
  }

  lemma {:induction false} ArgsFrom(img: seq<Byte>, sp: nat, ws: seq<nat>, ap: seq<nat>, args: seq<Text>, ep: seq<nat>,
                                    entry: nat)
    requires ws == StartWords(ap, ep, entry) && Begins(img, ws) && sp + |img| == USER_STACK_TOP && Placed(img, ap, args)
    ensures WordAt(img, 0) == Some(|args|) && ReadArgs(img, sp, 1, |args|) == Some(args)
    ensures WordAt(img, |args| + 1) == Some(0)
  {
    StartWordsAt(ap, ep, entry);
    hide StartWords, StringAt, WordAt;
    StringsRead(img, sp, ws, 1, ap, args);
    ArgsRead(img, sp, 1, args);
    assert WordAt(img, 0) == Some(ws[0]) && WordAt(img, |ap| + 1) == Some(ws[|ap| + 1]);
  }

  lemma {:induction false} EnvFrom(img: seq<Byte>, sp: nat, ws: seq<nat>, ap: seq<nat>, ep: seq<nat>, env: seq<Text>,
                                   entry: nat)
    requires ws == StartWords(ap, ep, entry) && Begins(img, ws) && sp + |img| == USER_STACK_TOP && Placed(img, ep, env)
    ensures ReadEnv(img, sp, |ap| + 2) == Some(env)
  {
    StartWordsAt(ap, ep, entry);
    hide StartWords, StringAt, WordAt;
    StringsRead(img, sp, ws, |ap| + 2, ep, env);
    assert WordAt(img, |ap| + 2 + |ep|) == Some(ws[|ap| + 2 + |ep|]);
    EnvReads(img, sp, |ap| + 2, env);
  }

  lemma {:induction false} AuxFrom(img: seq<Byte>, ws: seq<nat>, ap: seq<nat>, ep: seq<nat>, entry: nat)
    requires ws == StartWords(ap, ep, entry) && Begins(img, ws)
    ensures ReadAux(img, |ap| + |ep| + 3) == Some(Auxv(entry))
  {
    StartWordsAt(ap, ep, entry);
    hide StartWords;
    PairsRead(img, ws, |ap| + |ep| + 3, entry);
  }

  lemma {:induction false} PartsRead(img: seq<Byte>, sp: nat, args: seq<Text>, env: seq<Text>, aux: seq<(nat, nat)>)
    requires WordAt(img, 0) == Some(|args|) && ReadArgs(img, sp, 1, |args|) == Some(args)
    requires WordAt(img, |args| + 1) == Some(0) && ReadEnv(img, sp, |args| + 2) == Some(env)
    requires ReadAux(img, |args| + |env| + 3) == Some(aux)
    ensures ReadStart(img, sp) == Some(Start(args, env, aux))
  {
    hide WordAt, ReadArgs, ReadEnv, ReadAux;
  }

  /** A reader of the image recovers the arguments, the environment and the auxiliary pairs. */
  lemma {:induction false} ReadBack(img: seq<Byte>, sp: nat, ap: seq<nat>, args: seq<Text>, ep: seq<nat>,
                                    env: seq<Text>, entry: nat, tail: seq<Byte>)
    requires img == Flat(StartWords(ap, ep, entry)) + tail && sp + |img| == USER_STACK_TOP
    requires Placed(img, ap, args) && Placed(img, ep, env) && entry < WORD && |ap| < WORD
    ensures ReadStart(img, sp) == Some(Start(args, env, Auxv(entry)))
  {
    hide *;
    var ws := StartWords(ap, ep, entry);
    WordsBegin(img, ap, args, ep, env, entry, tail);
    ArgsFrom(img, sp, ws, ap, args, ep, entry);
    EnvFrom(img, sp, ws, ap, ep, env, entry);
    AuxFrom(img, ws, ap, ep, entry);
    PartsRead(img, sp, args, env, Auxv(entry));
  }
}
