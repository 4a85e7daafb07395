/** The source bytes gc's scanner keeps, and the map from an offset in them back to the original
    (gosource/diag_gcimage.go). */
module GcImage {
  import opened Common
  import opened Utf8

  // ---------- What is dropped ----------

  /** A NUL, a byte of no valid character, or a byte order mark that is not the first character. */
  predicate Drops(s: seq<byte>, first: bool)
    requires s != []
  {
    s[0] == 0 || StartsInvalid(s) || (DecodeRune(s).0 == 0xFEFF && !first)
  }

  function Offsets(from: nat, count: nat): (r: seq<nat>)
    ensures |r| == count
  {
    seq(count, j requires 0 <= j => from + j)
  }

  /** The offsets gc drops, from offset i on. */
  function DroppedFrom(src: seq<byte>, i: nat): seq<nat>
    requires i <= |src|
    decreases |src| - i
  {
    if i == |src| then []
    else
      var w := Width(src[i..]);
      (if Drops(src[i..], i == 0) then Offsets(i, w) else []) + DroppedFrom(src, i + w)
  }

  predicate Increasing(d: seq<nat>) {
    forall k, l :: 0 <= k < l < |d| ==> d[k] < d[l]
  }

  predicate Between(d: seq<nat>, low: nat, high: nat) {
    Increasing(d) && forall k :: 0 <= k < |d| ==> low <= d[k] < high
  }

  lemma BetweenJoin(a: seq<nat>, b: seq<nat>, low: nat, mid: nat, high: nat)
    requires Between(a, low, mid) && Between(b, mid, high) && low <= mid <= high
    ensures Between(a + b, low, high)
  {
  }

  lemma DroppedAtBetween(src: seq<byte>, i: nat)
    requires i < |src|
    ensures Between(DroppedAt(src, i), i, i + Width(src[i..]))
  {
    hide Drops, DecodeRune;
  }

  lemma BetweenNothing(low: nat, high: nat)
    ensures Between([], low, high)
  {
  }

  lemma BetweenStarts(d: seq<nat>, low: nat, high: nat)
    requires Between(d, low, high) && d != []
    ensures d[0] >= low
  {
  }

  lemma {:induction false} DroppedOrder(src: seq<byte>, i: nat)
    requires i <= |src|
    ensures Between(DroppedFrom(src, i), i, |src|)
    decreases |src| - i
  {
    hide *;
    if i == |src| {
      DroppedAtEnd(src);
      BetweenNothing(i, |src|);
    } else {
      var w := Width(src[i..]);
      DroppedStep(src, i);
      DroppedOrder(src, i + w);
      DroppedAtBetween(src, i);
      BetweenJoin(DroppedAt(src, i), DroppedFrom(src, i + w), i, i + w, |src|);
    }
  }

  /** What is left of src[i..] when next offsets have been dropped before i. */
  function KeptFrom(src: seq<byte>, dropped: seq<nat>, i: nat, next: nat): seq<byte>
    requires i <= |src| && next <= |dropped|
    decreases |src| - i
  {
    if i == |src| then []
    else if next < |dropped| && dropped[next] == i then KeptFrom(src, dropped, i + 1, next + 1)
    else [src[i]] + KeptFrom(src, dropped, i + 1, next)
  }

  function Kept(src: seq<byte>, dropped: seq<nat>): seq<byte> { KeptFrom(src, dropped, 0, 0) }

  lemma DroppedStep(src: seq<byte>, i: nat)
    requires i < |src|
    ensures var w := Width(src[i..]);
            i + w <= |src| && DroppedFrom(src, i) == DroppedAt(src, i) + DroppedFrom(src, i + w)
  {
  }

  lemma OffsetsGrow(from: nat, count: nat)
    ensures Offsets(from, 0) == [] && Offsets(from, 1) == [from]
    ensures Offsets(from, count + 1) == Offsets(from, count) + [from + count]
  {
  }

  /** Drops every byte of a character. */
  method DropAll(dropped: seq<nat>, i: nat, w: nat) returns (r: seq<nat>)
    ensures r == dropped + Offsets(i, w)
  {
    hide Offsets;
    r := dropped;
    OffsetsGrow(i, 0);
    for j := 0 to w
      invariant r == dropped + Offsets(i, j)
    {
      OffsetsGrow(i, j);
      Regroup(dropped, Offsets(i, j), [i + j]);
      r := r + [i + j];
    }
  }

  function DroppedAt(src: seq<byte>, i: nat): seq<nat>
    requires i < |src|
  {
    if Drops(src[i..], i == 0) then Offsets(i, Width(src[i..])) else []
  }

  /** One turn of the loop: the width of the character at i, after appending what it drops. */
  method Turn(src: seq<byte>, i: nat, dropped: seq<nat>) returns (w: nat, r: seq<nat>)
    requires i < |src|
    ensures w == Width(src[i..]) && r == dropped + DroppedAt(src, i)
  {
    hide DecodeRune, StartsInvalid, Offsets;
    var b, s := src[i], src[i..];
    OffsetsGrow(i, 0);
    if b < 0x80 {
      AsciiDecodes(s);
      r := if b == 0 then dropped + [i] else dropped;
      return 1, r;
    }
    var (c, width) := DecodeRune(s);
    InvalidIs(s);
    w, r := width, dropped;
    if c == RUNE_ERROR && w == 1 {
      r := dropped + [i];
    } else if c == 0xFEFF && i > 0 {
      r := DropAll(dropped, i, w);
    }
  }

  method DroppedOffsets(src: seq<byte>) returns (dropped: seq<nat>)
    ensures dropped == DroppedFrom(src, 0)
  {
    hide *;
    dropped := [];
    var i := 0;
    while i < |src|
      invariant 0 <= i <= |src| && DroppedFrom(src, 0) == dropped + DroppedFrom(src, i)
    {
      DroppedStep(src, i);
      var w, r := Turn(src, i, dropped);
      Regroup(dropped, DroppedAt(src, i), DroppedFrom(src, i + w));
      i, dropped := i + w, r;
    }
    DroppedAtEnd(src);
  }

  /** The image is the source itself when nothing is dropped. */
  method GcSourceImage(src: seq<byte>) returns (image: seq<byte>, dropped: seq<nat>)
    ensures dropped == DroppedFrom(src, 0) && image == Kept(src, dropped)
  {
    hide DroppedFrom, KeptFrom;
    dropped := DroppedOffsets(src);
    if |dropped| == 0 {
      KeptWhole(src, 0);
      return src, [];
    }
    image := [];
    var next := 0;
    for k := 0 to |src|
      invariant 0 <= next <= |dropped|
      invariant Kept(src, dropped) == image + KeptFrom(src, dropped, k, next)
    {
      KeptStep(src, dropped, k, next);
      if next < |dropped| && dropped[next] == k {
        next := next + 1;
        continue;
      }
      Regroup(image, [src[k]], KeptFrom(src, dropped, k + 1, next));
      image := image + [src[k]];
    }
    KeptAtEnd(src, dropped, next);
  }

  lemma InvalidIs(s: seq<byte>)
    ensures StartsInvalid(s) <==> DecodeRune(s).0 == RUNE_ERROR && DecodeRune(s).1 == 1
  {
  }

  lemma DroppedAtEnd(src: seq<byte>)
    ensures DroppedFrom(src, |src|) == []
  {
  }

  lemma KeptAtEnd(src: seq<byte>, dropped: seq<nat>, next: nat)
    requires next <= |dropped|
    ensures KeptFrom(src, dropped, |src|, next) == []
  {
  }

  lemma KeptStep(src: seq<byte>, dropped: seq<nat>, i: nat, next: nat)
    requires i < |src| && next <= |dropped|
    ensures KeptFrom(src, dropped, i, next) ==
            if next < |dropped| && dropped[next] == i then KeptFrom(src, dropped, i + 1, next + 1)
            else [src[i]] + KeptFrom(src, dropped, i + 1, next)
  {
  }

  lemma {:induction false} KeptWhole(src: seq<byte>, i: nat)
    requires i <= |src|
    ensures KeptFrom(src, [], i, 0) == src[i..]
    decreases |src| - i
  {
    if i < |src| {
      KeptWhole(src, i + 1);
      assert src[i..] == [src[i]] + src[i + 1..];
    }
  }

  // ---------- The offset map ----------

  /** How many dropped bytes precede the image byte at this offset, at least k of them. */
  function Preceding(dropped: seq<nat>, offset: nat, k: nat): (r: nat)
    requires k <= |dropped|
    ensures k <= r <= |dropped|
    decreases |dropped| - k
  {
    if k < |dropped| && dropped[k] <= offset + k then Preceding(dropped, offset, k + 1) else k
  }

  function OriginalOf(dropped: seq<nat>, offset: nat): nat { offset + Preceding(dropped, offset, 0) }

  method Original(dropped: seq<nat>, offset: nat) returns (r: nat)
    ensures r == OriginalOf(dropped, offset)
  {
    var k := 0;
    while k < |dropped| && dropped[k] <= offset + k
      invariant 0 <= k <= |dropped| && Preceding(dropped, offset, 0) == Preceding(dropped, offset, k)
    {
      k := k + 1;
    }
    return offset + k;
  }

  /** The dropped offsets counted are exactly those up to the original offset. */
  lemma {:induction false} PrecedingIs(dropped: seq<nat>, offset: nat, k: nat, n: nat)
    requires Increasing(dropped) && k <= n <= |dropped|
    requires forall j :: k <= j < n ==> dropped[j] <= offset + j
    requires n < |dropped| ==> dropped[n] > offset + n
    ensures Preceding(dropped, offset, k) == n
    decreases n - k
  {
    if k < n { PrecedingIs(dropped, offset, k + 1, n); }
  }

  lemma {:induction false} DistinctGap(dropped: seq<nat>, j: nat, n: nat)
    requires Increasing(dropped) && j <= n < |dropped|
    ensures dropped[j] + (n - j) <= dropped[n]
    decreases n - j
  {
    if j < n { DistinctGap(dropped, j + 1, n); }
  }

  /** The image byte at i - next is the byte at i, when i is kept and next dropped bytes precede it. */
  lemma OriginalAt(dropped: seq<nat>, i: nat, next: nat)
    requires Increasing(dropped) && next <= |dropped| && next <= i
    requires forall j :: 0 <= j < next ==> dropped[j] < i
    requires next < |dropped| ==> dropped[next] > i
    ensures OriginalOf(dropped, i - next) == i
  {
    forall j | 0 <= j < next ensures dropped[j] <= i - next + j {
      DistinctGap(dropped, j, next - 1);
    }
    PrecedingIs(dropped, i - next, 0, next);
  }

  predicate SplitsAt(dropped: seq<nat>, size: nat, i: nat, next: nat) {
    && Between(dropped, 0, size) && next <= |dropped| && next <= i <= size
    && (forall j :: 0 <= j < next ==> dropped[j] < i)
    && (forall j :: next <= j < |dropped| ==> i <= dropped[j])
  }

  /** The original offset of this image offset is not dropped, and holds b. */
  predicate ByteAt(src: seq<byte>, dropped: seq<nat>, low: nat, offset: nat, b: byte) {
    var o := OriginalOf(dropped, offset);
    low <= o < |src| && src[o] == b && o !in dropped
  }

  lemma {:induction false} KeptMaps(src: seq<byte>, dropped: seq<nat>, i: nat, next: nat)
    requires SplitsAt(dropped, |src|, i, next)
    ensures |KeptFrom(src, dropped, i, next)| == (|src| - i) - (|dropped| - next)
    decreases |src| - i
  {
    assert next < |dropped| ==> i <= dropped[next] < |src|;
    if i < |src| {
      if next < |dropped| && dropped[next] == i { KeptMaps(src, dropped, i + 1, next + 1); }
      else { KeptMaps(src, dropped, i + 1, next); }
    }
  }

  lemma {:induction false} KeptByte(src: seq<byte>, dropped: seq<nat>, i: nat, next: nat, m: nat)
    requires SplitsAt(dropped, |src|, i, next) && m < |KeptFrom(src, dropped, i, next)|
    ensures ByteAt(src, dropped, i, i - next + m, KeptFrom(src, dropped, i, next)[m])
    decreases |src| - i
  {
    hide OriginalOf;
    assert next < |dropped| ==> i <= dropped[next] < |src|;
    if next < |dropped| && dropped[next] == i {
      KeptByte(src, dropped, i + 1, next + 1, m);
    } else if m == 0 {
      OriginalAt(dropped, i, next);
    } else {
      KeptByte(src, dropped, i + 1, next, m - 1);
    }
  }

  /** Each image byte is the original byte its offset maps to, which was not dropped; and the map sends
      the end of the image to the end of the original. */
  lemma OriginalIsFaithful(src: seq<byte>)
    ensures var dropped := DroppedFrom(src, 0);
            var image := Kept(src, dropped);
            && |image| + |dropped| == |src|
            && (forall k :: 0 <= k < |image| ==> ByteAt(src, dropped, 0, k, image[k]))
            && OriginalOf(dropped, |image|) == |src|
  {
    var dropped := DroppedFrom(src, 0);
    var image := Kept(src, dropped);
    assert image == KeptFrom(src, dropped, 0, 0);
    DroppedOrder(src, 0);
    hide DroppedFrom, KeptFrom, Kept, OriginalOf, ByteAt;
    KeptMaps(src, dropped, 0, 0);
    forall k | 0 <= k < |image| ensures ByteAt(src, dropped, 0, k, image[k]) {
      KeptByte(src, dropped, 0, 0, k);
    }
    OriginalOfEnd(src, dropped);
  }

  /** The map is strictly increasing. */
  lemma OriginalIncreases(dropped: seq<nat>, k: nat, l: nat)
    requires k < l
    ensures OriginalOf(dropped, k) < OriginalOf(dropped, l)
  {
    PrecedingGrows(dropped, k, l, 0);
  }

  lemma {:induction false} PrecedingGrows(dropped: seq<nat>, a: nat, b: nat, k: nat)
    requires a <= b && k <= |dropped|
    ensures Preceding(dropped, a, k) <= Preceding(dropped, b, k)
    decreases |dropped| - k
  {
    if k < |dropped| && dropped[k] <= a + k { PrecedingGrows(dropped, a, b, k + 1); }
  }

  lemma OriginalOfEnd(src: seq<byte>, dropped: seq<nat>)
    requires Increasing(dropped) && |dropped| <= |src| && forall j :: 0 <= j < |dropped| ==> dropped[j] < |src|
    ensures OriginalOf(dropped, |src| - |dropped|) == |src|
  {
    var offset := |src| - |dropped|;
    forall j | 0 <= j < |dropped| ensures dropped[j] <= offset + j {
      DistinctGap(dropped, j, |dropped| - 1);
    }
    PrecedingIs(dropped, offset, 0, |dropped|);
  }

  lemma {:induction false} KeptReaches(src: seq<byte>, dropped: seq<nat>, i: nat, next: nat, o: nat) returns (m: nat)
    requires SplitsAt(dropped, |src|, i, next) && i <= o < |src| && o !in dropped
    ensures m < |KeptFrom(src, dropped, i, next)| && OriginalOf(dropped, i - next + m) == o
    decreases |src| - i
  {
    hide OriginalOf, KeptFrom;
    KeptStep(src, dropped, i, next);
    if next < |dropped| && dropped[next] == i {
      m := KeptReaches(src, dropped, i + 1, next + 1, o);
    } else if o == i {
      assert next < |dropped| ==> i <= dropped[next];
      OriginalAt(dropped, i, next);
      m := 0;
    } else {
      assert next < |dropped| ==> i <= dropped[next];
      m := KeptReaches(src, dropped, i + 1, next, o);
      m := m + 1;
    }
  }

  /** The image misses nothing else: every offset that is not dropped is reached. */
  lemma OriginalReachesAllKept(src: seq<byte>, o: nat)
    requires o < |src| && o !in DroppedFrom(src, 0)
    ensures exists k: nat :: k < |Kept(src, DroppedFrom(src, 0))| && OriginalOf(DroppedFrom(src, 0), k) == o
  {
    DroppedOrder(src, 0);
    var m := KeptReaches(src, DroppedFrom(src, 0), 0, 0, o);
  }

  // ---------- Dropping again drops nothing ----------

  /** The image, character by character. */
  function Image(s: seq<byte>, first: bool): seq<byte> {
    if s == [] then []
    else (if Drops(s, first) then [] else s[..Width(s)]) + Image(s[Width(s)..], false)
  }

  predicate Clean(s: seq<byte>, first: bool) {
    s == [] || (!Drops(s, first) && Clean(s[Width(s)..], false))
  }

  lemma {:induction false} KeptSkips(src: seq<byte>, dropped: seq<nat>, i: nat, next: nat, w: nat)
    requires i + w <= |src| && next + w <= |dropped| && dropped[next..next + w] == Offsets(i, w)
    ensures KeptFrom(src, dropped, i, next) == KeptFrom(src, dropped, i + w, next + w)
    decreases w
  {
    if w > 0 {
      assert dropped[next] == dropped[next..next + w][0] == i;
      assert dropped[next + 1..next + 1 + (w - 1)] == dropped[next..next + w][1..] == Offsets(i + 1, w - 1);
      KeptSkips(src, dropped, i + 1, next + 1, w - 1);
    }
  }

  lemma {:induction false} KeptCopies(src: seq<byte>, dropped: seq<nat>, i: nat, next: nat, w: nat)
    requires i + w <= |src| && next <= |dropped| && (next < |dropped| ==> dropped[next] >= i + w)
    ensures KeptFrom(src, dropped, i, next) == src[i..i + w] + KeptFrom(src, dropped, i + w, next)
    decreases w
  {
    if w > 0 {
      KeptCopies(src, dropped, i + 1, next, w - 1);
      assert src[i..i + w] == [src[i]] + src[i + 1..i + w];
    }
  }

  lemma ImageOfNothing(first: bool)
    ensures Image([], first) == []
  {
  }

  lemma TakeHead(d: seq<nat>, next: nat, a: seq<nat>, r: seq<nat>)
    requires next <= |d| && d[next..] == a + r
    ensures next + |a| <= |d| && d[next..next + |a|] == a && d[next + |a|..] == r
  {
    assert d[next..next + |a|] == d[next..][..|a|] && d[next + |a|..] == d[next..][|a|..];
  }

  lemma DropsAt(src: seq<byte>, i: nat)
    requires i < |src|
    ensures var w := Width(src[i..]);
            i + w <= |src| && src[i..][..w] == src[i..i + w] && src[i..][w..] == src[i + w..]
            && DroppedAt(src, i) == if Drops(src[i..], i == 0) then Offsets(i, w) else []
  {
    hide DecodeRune, Drops, Offsets;
  }

  /** One character of the image. */
  lemma KeptCharacter(src: seq<byte>, dropped: seq<nat>, i: nat, next: nat)
    requires i < |src| && next <= |dropped| && dropped[next..] == DroppedFrom(src, i)
    ensures var w, n := Width(src[i..]), next + |DroppedAt(src, i)|;
            i + w <= |src| && n <= |dropped| && dropped[n..] == DroppedFrom(src, i + w) &&
            KeptFrom(src, dropped, i, next) ==
            (if Drops(src[i..], i == 0) then [] else src[i..][..w]) + KeptFrom(src, dropped, i + w, n)
  {
    hide *;
    var w := Width(src[i..]);
    DroppedStep(src, i);
    DropsAt(src, i);
    OffsetsLength(i, w);
    TakeHead(dropped, next, DroppedAt(src, i), DroppedFrom(src, i + w));
    if Drops(src[i..], i == 0) {
      KeptSkips(src, dropped, i, next, w);
    } else {
      DroppedOrder(src, i + w);
      if next < |dropped| {
        assert dropped[next] == dropped[next..][0];
        BetweenStarts(DroppedFrom(src, i + w), i + w, |src|);
      }
      KeptCopies(src, dropped, i, next, w);
    }
  }

  lemma OffsetsLength(from: nat, count: nat)
    ensures |Offsets(from, count)| == count
  {
  }

  lemma {:induction false} KeptIsImage(src: seq<byte>, dropped: seq<nat>, i: nat, next: nat)
    requires i <= |src| && next <= |dropped| && dropped[next..] == DroppedFrom(src, i)
    ensures KeptFrom(src, dropped, i, next) == Image(src[i..], i == 0)
    decreases |src| - i
  {
    hide *;
    if i == |src| {
      KeptAtEnd(src, dropped, next);
      assert src[i..] == [];
      ImageOfNothing(i == 0);
    } else {
      var w := Width(src[i..]);
      KeptCharacter(src, dropped, i, next);
      KeptIsImage(src, dropped, i + w, next + |DroppedAt(src, i)|);
      ImageStep(src[i..], i == 0);
      DropsAt(src, i);
    }
  }

  lemma ImageStep(s: seq<byte>, first: bool)
    requires s != []
    ensures Image(s, first) == if Drops(s, first) then Image(s[Width(s)..], false)
                               else s[..Width(s)] + Image(s[Width(s)..], false)
  {
    hide DecodeRune, Drops;
  }

  lemma CleanStep(s: seq<byte>, first: bool)
    requires s != [] && Clean(s, first)
    ensures !Drops(s, first) && Clean(s[Width(s)..], false)
  {
    hide DecodeRune, Drops;
  }

  lemma {:induction false} CleanDropsNothing(src: seq<byte>, i: nat)
    requires i <= |src| && Clean(src[i..], i == 0)
    ensures DroppedFrom(src, i) == []
    decreases |src| - i
  {
    hide *;
    if i == |src| {
      DroppedAtEnd(src);
    } else {
      DroppedStep(src, i);
      DropsAt(src, i);
      CleanStep(src[i..], i == 0);
      CleanDropsNothing(src, i + Width(src[i..]));
    }
  }

  lemma FirstIsSpared(t: seq<byte>)
    requires t != [] && !Drops(t, false)
    ensures !Drops(t, true)
  {
  }

  lemma {:induction false} ImageIsClean(s: seq<byte>, first: bool)
    ensures Clean(Image(s, first), first)
  {
    if s != [] {
      var w := Width(s);
      var t := Image(s[w..], false);
      ImageStep(s, first);
      ImageIsClean(s[w..], false);
      if Drops(s, first) {
        if t != [] { FirstIsSpared(t); }
      } else {
        DecodesToChar(s);
        DecodeInContext(s[..w], t);
        DecodeInContext(s[..w], s[w..]);
        assert s[..w] + s[w..] == s && (s[..w] + t)[w..] == t && (s[..w] + t)[0] == s[0];
      }
    }
  }

  /** Taking the image of an image changes nothing. */
  lemma ImageIsIdempotent(src: seq<byte>)
    ensures var image := Kept(src, DroppedFrom(src, 0));
            DroppedFrom(image, 0) == [] && Kept(image, []) == image
  {
    var dropped := DroppedFrom(src, 0);
    var image := Kept(src, dropped);
    assert dropped[0..] == dropped && src[0..] == src && image[0..] == image;
    KeptIsImage(src, dropped, 0, 0);
    ImageIsClean(src, true);
    CleanDropsNothing(image, 0);
    KeptWhole(image, 0);
  }
}
