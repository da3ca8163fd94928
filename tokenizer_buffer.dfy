/** The tokenizer's buffer as a value: the invariants that relate its
    characters to the buffered input text, and what each in-place update of
    the buffer (shift, fill, cut, gap closing) does to them. */
module TokenizerBuffer {
  import opened CStrings
  import opened Escapes

  /** `b` holds the buffered text `seg` followed by its terminator, with no
      scan cut in it. */
  predicate Uncut(b: seq<char>, seg: seq<char>) {
    && |seg| < |b| && b[|seg|] == '\0'
    && (forall i :: 0 <= i < |seg| ==> b[i] == seg[i])
  }

  /** `b` holds the buffered text `seg` followed by its terminator, and at
      most one scan cut sits at `sp`: before it lies the token, a C string;
      at it the NUL that ends the token, the character it replaced being
      kept in `sc`; after it the rest of `seg`, unchanged. Without a cut the
      stop position is 0 and nothing is saved. */
  predicate Cut(b: seq<char>, sp: nat, sc: char, seg: seq<char>) {
    && |seg| < |b| && b[|seg|] == '\0'
    && sp <= |seg|
    && (forall i :: 0 <= i < sp ==> b[i] != '\0')
    && (b[sp] != '\0' ==> sp == 0 && sc == '\0')
    && (sp == |seg| ==> sc == '\0')
    && (sp < |seg| ==> (if b[sp] == '\0' then sc else b[sp]) == seg[sp])
    && (forall i :: sp < i < |seg| ==> b[i] == seg[i])
  }

  /** An uncut buffer is a cut buffer whose stop position is 0; its C
      string is the whole buffered text, and it starts with NUL exactly
      when that text is empty. */
  lemma {:induction false} UncutIsCut(b: seq<char>, seg: seq<char>)
    requires Uncut(b, seg) && NoNul(seg)
    ensures Cut(b, 0, '\0', seg)
    ensures (b[0] == '\0') == (seg == []) && b[..|seg|] == seg && CStr(b) == seg
  {
    assert b[..|seg|] == seg;
    CStrAt(b, |seg|);
  }

  /** A cut buffer without a token (the buffer is empty or nothing ends at
      the stop position) is uncut. */
  lemma {:induction false} CutWithoutToken(b: seq<char>, sp: nat, sc: char, seg: seq<char>)
    requires Cut(b, sp, sc, seg) && !(|seg| > 0 && b[sp] == '\0')
    ensures sp == 0 && sc == '\0' && Uncut(b, seg)
  {
  }

  /** With a token, the C string at the front of the buffer is the token. */
  lemma {:induction false} CutToken(b: seq<char>, sp: nat, sc: char, seg: seq<char>)
    requires Cut(b, sp, sc, seg) && b[sp] == '\0'
    ensures CStr(b) == b[..sp] && NoNul(b[..sp])
  {
    CStrAt(b, sp);
  }

  /** shiftBufferToStopPosition: moving the text from the stop position
      on, terminator included, to the front and putting the saved stop
      character back at index 0 leaves the rest of the buffered text uncut. */
  lemma {:induction false} ShiftUncuts(b: seq<char>, sp: nat, sc: char, seg: seq<char>)
    requires Cut(b, sp, sc, seg) && |seg| > 0 && b[sp] == '\0'
    ensures Uncut(MovedLeft(b, 0, sp, |seg| - sp + 1)[0 := sc], seg[sp..])
  {
    var n := |seg| - sp + 1;
    var r := MovedLeft(b, 0, sp, n)[0 := sc];
    forall i | 0 < i < n
      ensures r[i] == b[sp + i]
    {
      MovedLeftAt(b, 0, sp, n, i);
    }
  }

  /** fillBuffer: writing `w` after the buffered text and a terminator
      after it leaves the longer text uncut. */
  lemma {:induction false} FillUncut(b: seq<char>, seg: seq<char>, w: seq<char>)
    requires Uncut(b, seg) && |seg| + |w| < |b|
    ensures Uncut(Written(b, |seg|, w)[|seg| + |w| := '\0'], seg + w)
  {
    var r := Written(b, |seg|, w);
    forall i | 0 <= i < |seg| + |w|
      ensures r[i] == (seg + w)[i]
    {
      WrittenAt(b, |seg|, w, i);
    }
  }

  /** A scan's cut: replacing the character at `k` of an uncut buffer by
      NUL makes `k` the stop position, with the replaced character saved;
      the token is the text before `k`. */
  lemma {:induction false} CutAtKeeps(b: seq<char>, seg: seq<char>, k: nat)
    requires Uncut(b, seg) && NoNul(seg) && k <= |seg|
    ensures Cut(b[k := '\0'], k, b[k], seg)
    ensures b[k := '\0'][..k] == seg[..k] && CStr(b[k := '\0']) == seg[..k]
  {
    var r := b[k := '\0'];
    assert r[..k] == seg[..k];
    CStrAt(r, k);
  }

  /** The state handleEscapedChars leaves before it closes the gap: the
      rewritten token, a C string, fills the first `d` characters, and from
      the stop position `sp` on the buffer is still cut as before. */
  predicate Gap(b: seq<char>, d: nat, sp: nat, sc: char, seg: seq<char>) {
    && |seg| < |b| && b[|seg|] == '\0'
    && d <= sp <= |seg| && b[sp] == '\0'
    && (forall i :: 0 <= i < d ==> b[i] != '\0')
    && (sp == |seg| ==> sc == '\0')
    && (sp < |seg| ==> sc == seg[sp])
    && (forall i :: sp < i < |seg| ==> b[i] == seg[i])
  }

  /** Rewriting the token of a cut buffer into a shorter C string, and
      leaving everything from the stop position on alone, gives a gap. */
  lemma {:induction false} RewriteLeavesGap(b0: seq<char>, b1: seq<char>, d: nat, sp: nat, sc: char, seg: seq<char>)
    requires Cut(b0, sp, sc, seg) && |seg| > 0 && b0[sp] == '\0'
    requires |b1| == |b0| && d <= sp && b1[sp..] == b0[sp..] && NoNul(b1[..d])
    ensures Gap(b1, d, sp, sc, seg)
  {
    forall i | sp <= i < |b0|
      ensures b1[i] == b0[i]
    {
      assert b1[i] == b1[sp..][i - sp];
    }
    forall i | 0 <= i < d
      ensures b1[i] != '\0'
    {
      assert b1[i] == b1[..d][i];
    }
  }

  /** Closing the gap: moving the text from the stop position on,
      terminator included, to just after the rewritten token leaves a cut
      buffer over the buffered text without the `sp - d` skipped characters
      at its front. */
  lemma {:induction false} CloseGapKeeps(b: seq<char>, d: nat, sp: nat, sc: char, seg: seq<char>)
    requires Gap(b, d, sp, sc, seg)
    ensures var r := MovedLeft(b, d, sp, |seg| - sp + 1);
            Cut(r, d, sc, seg[sp - d..]) && r[..d] == b[..d] && r[d] == '\0'
  {
    var n := |seg| - sp + 1;
    var r := MovedLeft(b, d, sp, n);
    var t := seg[sp - d..];
    forall i | 0 <= i < |b|
      ensures r[i] == if d <= i < d + n then b[sp + i - d] else b[i]
    {
      MovedLeftAt(b, d, sp, n, i);
    }
    assert |t| == d + n - 1;
    forall i | d < i < |t|
      ensures r[i] == t[i]
    {
      assert t[i] == seg[sp - d + i];
    }
    forall i | 0 <= i < d
      ensures r[..d][i] == b[..d][i]
    {
      MovedLeftAt(b, d, sp, n, i);
    }
    assert r[..d] == b[..d];
  }


  /** The end of handleEscapedChars: the terminator at the old stop
      position is copied to just after the rewritten token and the rest of
      the buffer, its terminator included, is moved after it: `n`
      characters. */
  function CloseGap(b: seq<char>, d: nat, sp: nat, n: nat): (r: seq<char>)
    requires d <= sp < |b| && sp + 1 + n <= |b|
    ensures |r| == |b|
  {
    MovedLeft(b[d := b[sp]], d + 1, sp + 1, n)
  }

  /** Copying the character at `sp` and moving the `n - 1` after it is one
      move of `n` characters. */
  lemma {:induction false} CloseGapSplits(b: seq<char>, d: nat, sp: nat, n: nat)
    requires d <= sp && 0 < n && sp + n <= |b|
    ensures CloseGap(b, d, sp, n - 1) == MovedLeft(b, d, sp, n)
  {
    var r := CloseGap(b, d, sp, n - 1);
    forall k | 0 <= k < |b|
      ensures r[k] == MovedLeft(b, d, sp, n)[k]
    {
      MovedLeftAt(b[d := b[sp]], d + 1, sp + 1, n - 1, k);
      MovedLeftAt(b, d, sp, n, k);
    }
  }

  /** handleEscapedChars on a cut buffer: once the token has been rewritten
      into `R` at the front, closing the gap leaves a cut buffer whose token
      is `R`, over the buffered text without the characters the rewrite
      removed. */
  lemma {:induction false} RewriteCloses(b: seq<char>, sp: nat, sc: char, seg: seq<char>, e: char, h: EscapeHandler)
    requires Cut(b, sp, sc, seg) && |seg| > 0 && b[sp] == '\0' && Paired(b[..sp], e)
    ensures var R := Rewrite(b[..sp], e, h);
            var r := CloseGap(R + b[|R|..], |R|, sp, |seg| - sp);
            && Cut(r, |R|, sc, seg[sp - |R|..]) && r[..|R|] == R
  {
    CutToken(b, sp, sc, seg);
    var R := Rewrite(b[..sp], e, h);
    RewriteNoNul(b[..sp], e, h);
    var d := |R|;
    var b1 := R + b[d..];
    assert b1[sp..] == b[sp..];
    assert b1[..d] == R;
    RewriteLeavesGap(b, b1, d, sp, sc, seg);
    CloseGapKeeps(b1, d, sp, sc, seg);
    CloseGapSplits(b1, d, sp, |seg| - sp + 1);
  }
}
