/** What the tokenizer's scans compute, stated over the text that has not
    been consumed yet ("pending" text) rather than over the buffer. */
module TokenizerSpec {
  import opened CStrings
  import opened Escapes

  /** The characters skip() passes over by default. */
  const Whitespace: seq<char> := " \r\n\t"

  /** The part of the pending text `p` that fits in a buffer of `max`
      characters: what the buffer holds after it has been refilled. */
  function Window(p: seq<char>, max: nat): (w: seq<char>)
    ensures w <= p && |w| == Min(max, |p|)
  {
    p[..Min(max, |p|)]
  }

  /** The text after the first `n` characters of `s`, as consumption
      leaves it: one character at a time. */
  function Suffix(s: seq<char>, n: nat): (r: seq<char>)
    requires n <= |s|
    ensures |r| == |s| - n
    decreases n
  {
    if n == 0 then s else Suffix(s, n - 1)[1..]
  }

  /** Consuming `m` characters and then `n` more consumes `k = m + n`. */
  lemma {:induction false} SuffixAdd(s: seq<char>, m: nat, n: nat, k: nat)
    requires m + n == k <= |s|
    ensures Suffix(s, k) == Suffix(Suffix(s, m), n)
    decreases n
  {
    if n > 0 {
      SuffixAdd(s, m, n - 1, k - 1);
    }
  }

  /** The suffix is the slice from `n`. */
  lemma {:induction false} SuffixIs(s: seq<char>, n: nat)
    requires n <= |s|
    ensures Suffix(s, n) == s[n..]
    decreases n
  {
    if n > 0 {
      SuffixIs(s, n - 1);
      assert s[n - 1..][1..] == s[n..];
    }
  }

  /** Position `i` of `w` ends a scan: for nextUntil (`until`) the character
      is one of `chars`, for nextWhile it is not, and in both cases it is not
      escaped, that is, an even number of escape characters precede it. */
  predicate StopsAt(w: seq<char>, i: nat, chars: seq<char>, esc: char, until: bool)
    requires i < |w|
  {
    (w[i] in chars) == until && RunBefore(w, i, esc) % 2 == 0
  }

  /** The first position at or after `from` where a scan of `w` stops, or
      |w| when it runs to the end of `w`. */
  function ScanLen(w: seq<char>, chars: seq<char>, esc: char, until: bool, from: nat): (k: nat)
    requires from <= |w|
    ensures from <= k <= |w|
    decreases |w| - from
  {
    if from == |w| then |w|
    else if StopsAt(w, from, chars, esc, until) then from
    else ScanLen(w, chars, esc, until, from + 1)
  }

  /** A position is where the scan from `from` ends exactly when no earlier
      position stops it and it stops the scan or is the end of `w`. */
  lemma {:induction false} ScanLenSpec(w: seq<char>, chars: seq<char>, esc: char, until: bool, from: nat, k: nat)
    requires from <= k <= |w|
    ensures ScanLen(w, chars, esc, until, from) == k <==>
              (forall j :: from <= j < k ==> !StopsAt(w, j, chars, esc, until))
              && (k < |w| ==> StopsAt(w, k, chars, esc, until))
    decreases |w| - from
  {
    if from < k {
      ScanLenSpec(w, chars, esc, until, from + 1, k);
    }
  }

  /** The length of the longest prefix of `p` made of characters of `chars`. */
  function SpanLen(p: seq<char>, chars: seq<char>): (n: nat)
    ensures n <= |p|
    decreases |p|
  {
    if p == [] || p[0] !in chars then 0 else 1 + SpanLen(p[1..], chars)
  }

  /** A length is that of the longest run exactly when the run up to it is
      made of `chars` and the character after it, if any, is not. */
  lemma {:induction false} SpanLenSpec(p: seq<char>, chars: seq<char>, n: nat)
    requires n <= |p|
    ensures SpanLen(p, chars) == n <==>
              (forall i :: 0 <= i < n ==> p[i] in chars) && (n < |p| ==> p[n] !in chars)
    decreases |p|
  {
    if p != [] && p[0] in chars && n > 0 {
      SpanLenSpec(p[1..], chars, n - 1);
      assert forall i :: 1 <= i < n ==> p[i] == p[1..][i - 1];
    }
  }

  /** A span that covers a whole prefix continues in the rest. */
  lemma {:induction false} SpanLenAfterPrefix(p: seq<char>, chars: seq<char>, m: nat)
    requires m <= |p|
    requires forall i :: 0 <= i < m ==> p[i] in chars
    ensures SpanLen(p, chars) == m + SpanLen(p[m..], chars)
  {
    var n := SpanLen(p[m..], chars);
    SpanLenSpec(p[m..], chars, n);
    assert forall i :: m <= i < m + n ==> p[i] == p[m..][i - m];
    SpanLenSpec(p, chars, m + n);
  }

  /** After a run of `m` characters of `chars`, the run goes on as far as
      it does in the text after them. */
  lemma {:induction false} SpanLenAfterRun(p: seq<char>, chars: seq<char>, m: nat)
    requires m <= |p|
    requires forall i :: 0 <= i < m ==> p[i] in chars
    ensures SpanLen(p, chars) == m + SpanLen(Suffix(p, m), chars)
  {
    SuffixIs(p, m);
    SpanLenAfterPrefix(p, chars, m);
  }
}
