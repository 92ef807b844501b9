/** Building the initial stack of a user program in a buffer, from the top down. */
module StackBuilder {
  import opened Bytes
  import opened Options
  import opened StackImage

  // ---- room ----

  /** The stack offset after a string, rounded down to 8. */
  function Below(sp: nat, text: Text): nat
    requires |text| + 1 <= sp
  {
    (sp - |text| - 1) / 8 * 8
  }

  /** All strings find room below `sp`, the last one first. */
  predicate AllFit(texts: seq<Text>, sp: nat) {
    texts == [] ||
    (|texts[|texts| - 1]| + 1 <= sp && AllFit(texts[..|texts| - 1], Below(sp, texts[|texts| - 1])))
  }

  /** The offset once as many strings as fit are stored. */
  function Settle(texts: seq<Text>, sp: nat): (r: nat)
    ensures r <= sp
    ensures sp % 8 == 0 ==> r % 8 == 0
  {
    if texts == [] || |texts[|texts| - 1]| + 1 > sp then sp
    else Settle(texts[..|texts| - 1], Below(sp, texts[|texts| - 1]))
  }

  /** The room strings take: each with its terminator, rounded up to 8. */
  function TextRoom(texts: seq<Text>): nat {
    if texts == [] then 0 else TextRoom(texts[..|texts| - 1]) + (|texts[|texts| - 1]| + 8) / 8 * 8
  }

  lemma {:induction false} RoundDown(sp: nat, l: nat)
    requires sp % 8 == 0 && l + 1 <= sp
    ensures (sp - l - 1) / 8 * 8 == sp - (l + 8) / 8 * 8
  {
  }

  lemma {:induction false} AllFitIff(texts: seq<Text>, sp: nat)
    requires sp % 8 == 0
    ensures AllFit(texts, sp) <==> TextRoom(texts) <= sp
    ensures AllFit(texts, sp) ==> Settle(texts, sp) == sp - TextRoom(texts)
  {
    if texts != [] {
      var l := |texts[|texts| - 1]|;
      if l + 1 <= sp {
        AllFitIff(texts[..|texts| - 1], Below(sp, texts[|texts| - 1]));
        RoundDown(sp, l);
      }
    }
  }

  /** What the program gets to see of its strings: all of them or, if they do not fit, none. */
  function Delivered(texts: seq<Text>, sp: nat): seq<Text> { if AllFit(texts, sp) then texts else [] }

  // ---- what is placed stays ----

  ghost predicate PlacedAbove(b: seq<Byte>, ptrs: seq<nat>, texts: seq<Text>, sp: nat) {
    Placed(b, ptrs, texts) && sp <= |b| && forall i :: 0 <= i < |ptrs| ==> USER_STACK_TOP - ptrs[i] <= |b| - sp
  }

  ghost predicate SameAbove(b: seq<Byte>, b': seq<Byte>, sp: nat) {
    |b| == |b'| && forall i :: sp <= i < |b| ==> b'[i] == b[i]
  }

  lemma {:induction false} PlacedFrame(b: seq<Byte>, b': seq<Byte>, ptrs: seq<nat>, texts: seq<Text>, sp: nat, sp': nat)
    requires PlacedAbove(b, ptrs, texts, sp) && sp' <= sp && SameAbove(b, b', sp)
    ensures PlacedAbove(b', ptrs, texts, sp')
  {
  }

  lemma {:induction false} PlacedInImage(b: seq<Byte>, ptrs: seq<nat>, texts: seq<Text>, sp: nat)
    requires PlacedAbove(b, ptrs, texts, sp)
    ensures Placed(b[sp..], ptrs, texts)
  {
  }

  lemma {:induction false} PlacedPrepend(pre: seq<Byte>, b: seq<Byte>, ptrs: seq<nat>, texts: seq<Text>)
    requires Placed(b, ptrs, texts)
    ensures Placed(pre + b, ptrs, texts)
  {
  }

  lemma {:induction false} PlacedMore(b: seq<Byte>, ptrs: seq<nat>, texts: seq<Text>, sp: nat, text: Text, t: nat)
    requires PlacedAbove(b, ptrs, texts, sp) && Holds(b, t, text) && t <= |b| - sp && |b| < USER_STACK_TOP
    ensures PlacedAbove(b, [USER_STACK_TOP - t] + ptrs, [text] + texts, sp)
  {
  }

  // ---- storing ----

  /** Copies a string with its terminator to just below `sp`. */
  method PushText(buf: array<Byte>, sp: nat, text: Text) returns (sp8: nat)
    requires |text| + 1 <= sp <= buf.Length
    modifies buf
    ensures sp8 == sp - |text| - 1 && buf[sp..] == old(buf[sp..])
    ensures Holds(buf[..], buf.Length - sp8, text)
  {
    sp8 := sp - |text| - 1;
    var j := 0;
    while j < |text|
      invariant j <= |text| && buf[sp..] == old(buf[sp..])
      invariant forall i :: 0 <= i < j ==> buf[sp8 + i] == text[i]
    {
      buf[sp8 + j] := text[j];
      j := j + 1;
    }
    buf[sp8 + j] := 0;
    assert buf[sp8..sp8 + |text| + 1] == text + [0];
    assert buf[..][sp8..sp8 + |text| + 1] == buf[sp8..sp8 + |text| + 1];
  }

  lemma {:induction false} AlignedOffset(base: nat, o: nat)
    requires base % 8 == 0
    ensures (base + o) / 8 * 8 - base == o / 8 * 8
  {
  }

  /** Stores one string, at an address that `base` makes 8-aligned; those stored before stay. */
  method PushString(buf: array<Byte>, base: nat, sp: nat, text: Text, ghost ptrs: seq<nat>, ghost texts: seq<Text>)
    returns (sp': nat, ptr: nat)
    requires |text| + 1 <= sp <= buf.Length < USER_STACK_TOP && base % 8 == 0
    requires PlacedAbove(buf[..], ptrs, texts, sp)
    modifies buf
    ensures sp' == Below(sp, text) && SameAbove(old(buf[..]), buf[..], sp)
    ensures PlacedAbove(buf[..], [ptr] + ptrs, [text] + texts, sp')
  {
    hide PlacedAbove, Holds;
    ghost var b := buf[..];
    var sp8 := PushText(buf, sp, text);
    assert buf[..][sp..] == buf[sp..] == b[sp..];
    forall i | sp <= i < |b| ensures buf[..][i] == b[i] {
      assert buf[..][sp..][i - sp] == b[sp..][i - sp];
    }
    PlacedFrame(b, buf[..], ptrs, texts, sp, Below(sp, text));
    PlacedMore(buf[..], ptrs, texts, Below(sp, text), text, buf.Length - sp8);
    AlignedOffset(base, sp8);
    sp' := (base + sp8) / 8 * 8 - base;
    ptr := USER_STACK_TOP - (buf.Length - sp8);
  }

  lemma {:induction false} FitStep(texts: seq<Text>, i: nat, sp: nat)
    requires 0 < i <= |texts|
    ensures var text := texts[i - 1];
            if |text| + 1 > sp then !AllFit(texts[..i], sp) && Settle(texts[..i], sp) == sp
            else AllFit(texts[..i], sp) == AllFit(texts[..i - 1], Below(sp, text)) &&
                 Settle(texts[..i], sp) == Settle(texts[..i - 1], Below(sp, text))
    ensures texts[i - 1..] == [texts[i - 1]] + texts[i..]
  {
    assert texts[..i][..i - 1] == texts[..i - 1] && texts[..i][i - 1] == texts[i - 1];
  }

  lemma {:induction false} NonePlaced(b: seq<Byte>, sp: nat)
    requires sp <= |b|
    ensures PlacedAbove(b, [], [], sp)
  {
  }

  lemma {:induction false} NoneFit(sp: nat)
    ensures AllFit([], sp) && Settle([], sp) == sp
  {
  }

  lemma {:induction false} BelowIsLess(sp: nat, text: Text)
    requires |text| + 1 <= sp
    ensures Below(sp, text) < sp
  {
  }

  /** Stores the strings from the last to the first. */
  method PushStrings(buf: array<Byte>, base: nat, sp: nat, texts: seq<Text>) returns (sp': nat, ptrs: seq<nat>)
    requires sp <= buf.Length < USER_STACK_TOP && base % 8 == 0
    modifies buf
    ensures sp' == Settle(texts, sp) && SameAbove(old(buf[..]), buf[..], sp)
    ensures PlacedAbove(buf[..], ptrs, Delivered(texts, sp), sp')
  {
    assert PlacedAbove(buf[..], [], [], sp);
    hide AllFit, Settle, PlacedAbove, Below;
    sp', ptrs := sp, [];
    var i := |texts|;
    assert texts[..i] == texts && texts[i..] == [];
    while i > 0
      invariant i <= |texts| && sp' <= sp && SameAbove(old(buf[..]), buf[..], sp)
      invariant AllFit(texts, sp) == AllFit(texts[..i], sp') && Settle(texts, sp) == Settle(texts[..i], sp')
      invariant PlacedAbove(buf[..], ptrs, texts[i..], sp')
    {
      FitStep(texts, i, sp');
      if |texts[i - 1]| + 1 > sp' {
        NonePlaced(buf[..], sp');
        return sp', [];
      }
      var ptr;
      ghost var sp0 := sp';
      sp', ptr := PushString(buf, base, sp', texts[i - 1], ptrs, texts[i..]);
      BelowIsLess(sp0, texts[i - 1]);
      ptrs := [ptr] + ptrs;
      i := i - 1;
    }
    assert texts[..0] == [] && texts[0..] == texts;
    NoneFit(sp');
  }

  /** Stores a word just below `sp`. */
  method PushWord(buf: array<Byte>, sp: nat, w: nat) returns (sp': nat)
    requires 8 <= sp <= buf.Length
    modifies buf
    ensures sp' == sp - 8 && buf[sp'..] == Encode(w, 8) + old(buf[sp..])
  {
    hide Encode;
    sp' := sp - 8;
    var bytes := Encode(w, 8);
    var j := 0;
    while j < 8
      invariant j <= 8 && buf[sp..] == old(buf[sp..])
      invariant forall i :: 0 <= i < j ==> buf[sp' + i] == bytes[i]
    {
      buf[sp' + j] := bytes[j];
      j := j + 1;
    }
    assert buf[sp'..] == buf[sp'..sp] + buf[sp..];
    assert buf[sp'..sp] == bytes;
  }

  lemma {:induction false} FlatStep(ws: seq<nat>, i: nat)
    requires 0 < i <= |ws|
    ensures Flat(ws[i - 1..]) == Encode(ws[i - 1], 8) + Flat(ws[i..])
  {
  }

  /** Stores words so that they read upwards in order. */
  method PushWords(buf: array<Byte>, sp: nat, ws: seq<nat>) returns (sp': nat)
    requires 8 * |ws| <= sp <= buf.Length
    modifies buf
    ensures sp' == sp - 8 * |ws| && buf[sp'..] == Flat(ws) + old(buf[sp..])
  {
    hide Flat, Encode;
    sp' := sp;
    var i := |ws|;
    assert Flat(ws[i..]) + old(buf[sp..]) == old(buf[sp..]) by { assert ws[i..] == []; }
    ghost var tail := buf[sp..];
    while i > 0
      invariant i <= |ws| && sp' == sp - 8 * (|ws| - i)
      invariant buf[sp'..] == Flat(ws[i..]) + tail
    {
      FlatStep(ws, i);
      sp' := PushWord(buf, sp', ws[i - 1]);
      assert Encode(ws[i - 1], 8) + (Flat(ws[i..]) + tail) == Encode(ws[i - 1], 8) + Flat(ws[i..]) + tail;
      i := i - 1;
    }
    assert ws[0..] == ws;
  }

  // ---- the strings that are asked for ----

  /** The strings before the first null, at most 32 of them. */
  function Leading(src: seq<Option<Text>>): (n: nat)
    ensures n <= |src| && n <= MAX_STACK_STRINGS
    ensures forall i :: 0 <= i < n ==> src[i].Some?
    ensures n < |src| && n < MAX_STACK_STRINGS ==> src[n].None?
  {
    if |src| == 0 || src[0].None? then 0
    else var n := Leading(src[1..]); if n < MAX_STACK_STRINGS then n + 1 else n
  }

  /** A list of string pointers may be missing; without a count it ends at a null or has more than 32. */
  predicate Readable(src: Option<seq<Option<Text>>>, count: nat) {
    src.None? || (if count > 0 then count <= |src.value| || |src.value| >= MAX_STACK_STRINGS
                  else |src.value| > MAX_STACK_STRINGS || Leading(src.value) < |src.value|)
  }

  function Count(src: Option<seq<Option<Text>>>, count: nat): nat {
    if src.None? then 0
    else if count > MAX_STACK_STRINGS then MAX_STACK_STRINGS
    else if count > 0 then count else Leading(src.value)
  }

  /** The first `n` strings of a list, a null as the empty string. */
  function TextsOf(src: Option<seq<Option<Text>>>, n: nat): (r: seq<Text>)
    requires src.None? ==> n == 0
    requires src.Some? ==> n <= |src.value|
    ensures |r| == n
  {
    seq(n, i requires 0 <= i < n => match src.value[i] case Some(t) => t case None => [])
  }

  /** The strings stored for a list: as many as counted. */
  function Asked(src: Option<seq<Option<Text>>>, count: nat): (r: seq<Text>)
    requires Readable(src, count)
    ensures |r| == Count(src, count) <= MAX_STACK_STRINGS
  {
    TextsOf(src, Count(src, count))
  }

  method CountStrings(src: Option<seq<Option<Text>>>, count: nat) returns (n: nat)
    requires Readable(src, count)
    ensures n == Count(src, count) && if src.None? then n == 0 else n <= |src.value|
  {
    if src.None? {
      return 0;
    }
    n := count;
    if count == 0 {
      ghost var l := Leading(src.value);
      while src.value[n].Some? && n < MAX_STACK_STRINGS
        invariant n <= l
        decreases MAX_STACK_STRINGS - n
      {
        n := n + 1;
      }
    }
    if n > MAX_STACK_STRINGS {
      n := MAX_STACK_STRINGS;
    }
  }

  // ---- the image ----

  /** Where the words start: the address is rounded down to 16. */
  function WordsStart(base: nat, sp: nat): int { (base + sp) / 16 * 16 - base }

  /** There is room below the strings for the count, the pointers, two nulls and the auxiliary words. */
  predicate ImageFits(base: nat, args: seq<Text>, env: seq<Text>) {
    var sp1 := Settle(args, STACK_BUF_SIZE);
    var n := |Delivered(args, STACK_BUF_SIZE)| + |Delivered(env, sp1)|;
    WordsStart(base, Settle(env, sp1)) >= 8 * (n + 17)
  }

  lemma {:induction false} SixPairs(entry: nat)
    ensures |Auxv(entry)| == 6
  {
  }

  lemma {:induction false} FlatSix(a: seq<nat>, b: seq<nat>, c: seq<nat>, d: seq<nat>, e: seq<nat>, f: seq<nat>,
                                   tail: seq<Byte>)
    ensures Flat(a) + (Flat(b) + (Flat(c) + (Flat(d) + (Flat(e) + (Flat(f) + tail))))) ==
            Flat(a + b + c + d + e + f) + tail
  {
    FlatAppend(a, b);
    FlatAppend(a + b, c);
    FlatAppend(a + b + c, d);
    FlatAppend(a + b + c + d, e);
    FlatAppend(a + b + c + d + e, f);
    hide Flat;
  }

  /** Stores the words of the image below `sp`. */
  method PushStart(buf: array<Byte>, sp: nat, ap: seq<nat>, ep: seq<nat>, entry: nat) returns (sp': nat)
    requires 8 * (|ap| + |ep| + 17) <= sp <= buf.Length
    modifies buf
    ensures sp' == sp - 8 * (|ap| + |ep| + 17) && buf[sp'..] == Flat(StartWords(ap, ep, entry)) + old(buf[sp..])
  {
    hide Flat, PairWords, Auxv, Encode;
    ghost var tail := buf[sp..];
    assert |PairWords(Auxv(entry))| == 14 by { assert |Auxv(entry)| == 6 by { SixPairs(entry); } }
    sp' := PushWords(buf, sp, PairWords(Auxv(entry)));
    sp' := PushWords(buf, sp', [0]);
    sp' := PushWords(buf, sp', ep);
    sp' := PushWords(buf, sp', [0]);
    sp' := PushWords(buf, sp', ap);
    sp' := PushWords(buf, sp', [|ap|]);
    FlatSix([|ap|], ap, [0], ep, [0], PairWords(Auxv(entry)), tail);
  }

  lemma {:induction false} PlacedCount(b: seq<Byte>, ptrs: seq<nat>, texts: seq<Text>, sp: nat)
    requires PlacedAbove(b, ptrs, texts, sp)
    ensures |ptrs| == |texts|
  {
  }

  /** Builds the image and gives the address its lowest byte will have on the user stack; a reader there
      recovers the strings that fit and the auxiliary pairs. */
  method BuildStack(base: nat, argv: Option<seq<Option<Text>>>, argc: nat, envp: Option<seq<Option<Text>>>, envc: nat,
                    entry: nat)
    returns (img: seq<Byte>, userSp: nat)
    requires base % 8 == 0 && entry < WORD && Readable(argv, argc) && Readable(envp, envc)
    requires ImageFits(base, Asked(argv, argc), Asked(envp, envc))
    ensures userSp + |img| == USER_STACK_TOP && |img| <= STACK_BUF_SIZE
    ensures ReadStart(img, userSp) == Some(Start(Delivered(Asked(argv, argc), STACK_BUF_SIZE),
                                                 Delivered(Asked(envp, envc),
                                                           Settle(Asked(argv, argc), STACK_BUF_SIZE)),
                                                 Auxv(entry)))
  {
    hide Settle, AllFit, Flat, ReadStart, PlacedAbove, Placed, StartWords, Count, TextsOf, Readable;
    var buf := new Byte[STACK_BUF_SIZE](_ => 0);
    var wanted := CountStrings(argv, argc);
    var args := TextsOf(argv, wanted);
    wanted := CountStrings(envp, envc);
    var env := TextsOf(envp, wanted);
    var sp1, ap := PushStrings(buf, base, STACK_BUF_SIZE, args);
    ghost var b1 := buf[..];
    var sp2, ep := PushStrings(buf, base, sp1, env);
    ghost var b2 := buf[..];
    var sp := WordsStart(base, sp2);
    PlacedFrame(b1, b2, ap, Delivered(args, STACK_BUF_SIZE), sp1, sp);
    PlacedFrame(b2, b2, ep, Delivered(env, sp1), sp2, sp);
    PlacedCount(b2, ap, Delivered(args, STACK_BUF_SIZE), sp);
    PlacedCount(b2, ep, Delivered(env, sp1), sp);
    PlacedInImage(b2, ap, Delivered(args, STACK_BUF_SIZE), sp);
    PlacedInImage(b2, ep, Delivered(env, sp1), sp);
    ghost var tail := b2[sp..];
    assert tail == buf[sp..];
    var spf := PushStart(buf, sp, ap, ep, entry);
    img := buf[spf..];
    userSp := USER_STACK_TOP - (STACK_BUF_SIZE - spf);
    PlacedPrepend(Flat(StartWords(ap, ep, entry)), tail, ap, Delivered(args, STACK_BUF_SIZE));
    PlacedPrepend(Flat(StartWords(ap, ep, entry)), tail, ep, Delivered(env, sp1));
    ReadBack(img, userSp, ap, Delivered(args, STACK_BUF_SIZE), ep, Delivered(env, sp1), entry, tail);
  }
}
