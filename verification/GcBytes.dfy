/** Which bytes gc's scanner drops, told from the bytes of the source alone (gosource/diag_gcimage.go). */
module GcBytes {
  import opened GcImage
  import opened Utf8

  /** The n bytes at a are one character, and the byte at o is among them. */
  ghost predicate Covers(src: seq<byte>, a: nat, n: nat, o: nat) {
    a <= o < a + n <= |src| && IsChar(src[a..a + n])
  }

  predicate BomAt(src: seq<byte>, a: nat) {
    a + 3 <= |src| && src[a] == 0xEF && src[a + 1] == 0xBB && src[a + 2] == 0xBF
  }

  /** A NUL, a byte of no character, or one of the three bytes of a mark that is not at the start. */
  ghost predicate Dropped(src: seq<byte>, o: nat)
    requires o < |src|
  {
    || src[o] == 0
    || (forall a: nat, n: nat :: !Covers(src, a, n, o))
    || (exists a: nat :: 0 < a <= o < a + 3 && BomAt(src, a))
  }

  /** No character lies across this place. */
  ghost predicate Boundary(src: seq<byte>, i: nat) {
    i <= |src| && forall a: nat, n: nat :: a < i < a + n ==> !Covers(src, a, n, i)
  }

  lemma CharHere(src: seq<byte>, i: nat, n: nat)
    requires i + n <= |src| && IsChar(src[i..i + n])
    ensures i < |src| && !StartsInvalid(src[i..]) && Width(src[i..]) == n > 0
  {
    assert src[i..][..n] == src[i..i + n];
    CharDecodes(src[i..], n);
  }

  lemma DecodedHere(src: seq<byte>, i: nat)
    requires i < |src| && !StartsInvalid(src[i..])
    ensures var w := Width(src[i..]); i + w <= |src| && IsChar(src[i..i + w])
  {
    DecodesToChar(src[i..]);
    assert src[i..][..Width(src[i..])] == src[i..i + Width(src[i..])];
  }

  lemma TailStartsNothing(c: seq<byte>)
    requires IsChar(c)
    ensures !IsTail(c[0]) && forall k :: 0 < k < |c| ==> IsTail(c[k])
  {
  }

  lemma NothingAcross(src: seq<byte>, i: nat, a: nat, n: nat, o: nat)
    requires Boundary(src, i) && a < i <= o
    ensures !Covers(src, a, n, o)
  {
    assert !Covers(src, a, n, i) || i >= a + n;
  }

  /** A character that covers a byte of the one decoded at a boundary is that one. */
  lemma CoversIsHere(src: seq<byte>, i: nat, a: nat, n: nat, o: nat)
    requires i < |src| && Boundary(src, i) && Covers(src, a, n, o) && i <= o < i + Width(src[i..])
    ensures a == i && n == Width(src[i..]) && !StartsInvalid(src[i..])
  {
    hide IsChar, StartsInvalid, Width;
    if a < i {
      NothingAcross(src, i, a, n, o);
    } else if a == i {
      CharHere(src, i, n);
    } else {
      InvalidIsOne(src[i..]);
      DecodedHere(src, i);
      TailStartsNothing(src[i..i + Width(src[i..])]);
      TailStartsNothing(src[a..a + n]);
    }
  }

  lemma InvalidIsOne(s: seq<byte>)
    requires s != []
    ensures StartsInvalid(s) ==> Width(s) == 1
  {
  }

  lemma NextBoundary(src: seq<byte>, i: nat)
    requires i < |src| && Boundary(src, i)
    ensures Boundary(src, i + Width(src[i..]))
  {
    hide IsChar, StartsInvalid, Width;
    var j := i + Width(src[i..]);
    forall a: nat, n: nat | a < j < a + n ensures !Covers(src, a, n, j) {
      if Covers(src, a, n, j) {
        var o := if a < i then i else a;
        assert Covers(src, a, n, o);
        CoversIsHere(src, i, a, n, o);
      }
    }
  }

  lemma MarkIsChar(src: seq<byte>, a: nat)
    requires BomAt(src, a)
    ensures IsChar(src[a..a + 3]) && DecodeRune(src[a..]) == (0xFEFF, 3)
  {
  }

  lemma RuneIsMark(s: seq<byte>)
    requires s != [] && DecodeRune(s).0 == 0xFEFF
    ensures |s| >= 3 && s[0] == 0xEF && s[1] == 0xBB && s[2] == 0xBF && Width(s) == 3 && !StartsInvalid(s)
  {
    DecodesToRune(s);
    var w := Width(s);
    var c := s[..w];
    assert RuneOf(c) == 0xFEFF;
    if w == 3 {
      assert c[0] == s[0] && c[1] == s[1] && c[2] == s[2];
    }
  }

  /** The bytes dropped at a boundary are those that Dropped tells. */
  lemma DroppedHere(src: seq<byte>, i: nat, o: nat)
    requires i < |src| && Boundary(src, i) && i <= o < i + Width(src[i..])
    ensures o in DroppedAt(src, i) <==> Dropped(src, o)
  {
    var s, w := src[i..], Width(src[i..]);
    InvalidIsOne(s);
    hide IsChar, StartsInvalid, Width, DecodeRune, Drops, BomAt;
    OffsetsHold(i, w, o);
    assert o in DroppedAt(src, i) <==> Drops(s, i == 0);
    DropsMeans(s, i == 0);
    if StartsInvalid(s) {
      forall a: nat, n: nat ensures !Covers(src, a, n, o) {
        if Covers(src, a, n, o) { CoversIsHere(src, i, a, n, o); }
      }
    } else {
      DecodedHere(src, i);
      assert Covers(src, i, w, o);
      NulIsAlone(src, i, o);
      if exists a: nat :: 0 < a <= o < a + 3 && BomAt(src, a) {
        var a: nat :| 0 < a <= o < a + 3 && BomAt(src, a);
        MarkIsChar(src, a);
        assert Covers(src, a, 3, o) by { MarkFits(src, a); }
        CoversIsHere(src, i, a, 3, o);
      }
      if DecodeRune(s).0 == 0xFEFF {
        RuneIsMark(s);
        assert BomAt(src, i) by { MarkHere(src, i); }
      }
    }
  }

  lemma MarkFits(src: seq<byte>, a: nat)
    requires BomAt(src, a)
    ensures a + 3 <= |src|
  {
  }

  lemma MarkHere(src: seq<byte>, i: nat)
    requires i + 3 <= |src| && src[i..][0] == 0xEF && src[i..][1] == 0xBB && src[i..][2] == 0xBF
    ensures BomAt(src, i)
  {
  }

  lemma OffsetsHold(i: nat, w: nat, o: nat)
    ensures o in Offsets(i, w) <==> i <= o < i + w
  {
    if i <= o < i + w { assert Offsets(i, w)[o - i] == o; }
  }

  lemma DropsMeans(s: seq<byte>, first: bool)
    requires s != []
    ensures Drops(s, first) <==> s[0] == 0 || StartsInvalid(s) || (DecodeRune(s).0 == 0xFEFF && !first)
  {
  }

  /** A NUL is a character by itself. */
  lemma NulIsAlone(src: seq<byte>, i: nat, o: nat)
    requires i < |src| && !StartsInvalid(src[i..]) && i <= o < i + Width(src[i..]) <= |src|
    ensures src[o] == 0 <==> src[i] == 0
  {
    var w := Width(src[i..]);
    DecodedHere(src, i);
    var c := src[i..i + w];
    assert c[0] == src[i] && c[o - i] == src[o];
    if src[i] == 0 { assert |c| == 1; }
  }

  lemma {:induction false} DroppedAhead(src: seq<byte>, i: nat, o: nat)
    requires i <= o < |src| && Boundary(src, i)
    ensures o in DroppedFrom(src, i) <==> Dropped(src, o)
    decreases |src| - i
  {
    hide Dropped, Width, Drops, Boundary, DroppedFrom, DroppedAt;
    var w := Width(src[i..]);
    DroppedStep(src, i);
    DroppedAtBetween(src, i);
    NextBoundary(src, i);
    if o < i + w {
      DroppedOrder(src, i + w);
      DroppedHere(src, i, o);
    } else {
      DroppedAhead(src, i + w, o);
    }
  }

  /** A byte is dropped exactly if it is a NUL, belongs to no character anywhere in the source, or belongs to a
      byte order mark that does not begin it. */
  lemma DroppedByBytes(src: seq<byte>, o: nat)
    requires o < |src|
    ensures o in DroppedFrom(src, 0) <==> Dropped(src, o)
  {
    hide Dropped, DroppedFrom;
    DroppedAhead(src, 0, o);
  }
}
