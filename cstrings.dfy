/** The C library string routines the tokenizer is built on (strcspn, strspn,
    strchr, strcpy's view of a string, memmove), stated over character
    sequences in which the NUL character ends a string. */
module CStrings {

  /** True when no character of `s` is the NUL terminator. */
  predicate NoNul(s: seq<char>) {
    forall i :: 0 <= i < |s| ==> s[i] != '\0'
  }

  function Min(a: nat, b: nat): nat {
    if a <= b then a else b
  }

  /** The C string that starts at the front of `s`: every character up to,
      and not including, the first NUL. */
  function CStr(s: seq<char>): (r: seq<char>)
    ensures |r| <= |s|
  {
    if s == [] || s[0] == '\0' then [] else [s[0]] + CStr(s[1..])
  }

  /** The C string is a NUL-free prefix, ended by a NUL or by the end of
      `s`. */
  lemma {:induction false} CStrSpec(s: seq<char>)
    ensures CStr(s) <= s && NoNul(CStr(s))
    ensures |CStr(s)| < |s| ==> s[|CStr(s)|] == '\0'
  {
    if s != [] && s[0] != '\0' {
      CStrSpec(s[1..]);
    }
  }

  /** A NUL after a NUL-free prefix ends the C string there. */
  lemma {:induction false} CStrAt(s: seq<char>, k: nat)
    requires k < |s| && NoNul(s[..k]) && s[k] == '\0'
    ensures CStr(s) == s[..k]
  {
    if k > 0 {
      assert s[1..][..k - 1] == s[1..k];
      CStrAt(s[1..], k - 1);
    }
  }

  /** A C string ends at or before any NUL. */
  lemma {:induction false} CStrBound(s: seq<char>, k: nat)
    requires k < |s| && s[k] == '\0'
    ensures |CStr(s)| <= k
  {
    CStrSpec(s);
  }

  /** strcspn(s + from, reject): the length of the run starting at `from`
      that holds neither the terminator nor a character of `reject`. */
  function Strcspn(s: seq<char>, from: nat, reject: seq<char>): (n: nat)
    requires from <= |s|
    ensures from + n <= |s|
    decreases |s| - from
  {
    if from == |s| || s[from] == '\0' || s[from] in reject then 0
    else 1 + Strcspn(s, from + 1, reject)
  }

  /** What strcspn promises: the run holds no terminator and no character
      of `reject`, and it ends at one of them or at the end of `s`. */
  lemma {:induction false} StrcspnSpec(s: seq<char>, from: nat, reject: seq<char>)
    requires from <= |s|
    ensures forall i :: from <= i < from + Strcspn(s, from, reject) ==> s[i] != '\0' && s[i] !in reject
    ensures var n := Strcspn(s, from, reject);
            from + n < |s| ==> s[from + n] == '\0' || s[from + n] in reject
    decreases |s| - from
  {
    if !(from == |s| || s[from] == '\0' || s[from] in reject) {
      StrcspnSpec(s, from + 1, reject);
    }
  }

  /** strspn(s + from, accept): the length of the run starting at `from`
      whose characters all belong to `accept` (the terminator never does). */
  function Strspn(s: seq<char>, from: nat, accept: seq<char>): (n: nat)
    requires from <= |s|
    ensures from + n <= |s|
    decreases |s| - from
  {
    if from == |s| || s[from] == '\0' || s[from] !in accept then 0
    else 1 + Strspn(s, from + 1, accept)
  }

  /** What strspn promises: the run holds characters of `accept` only, and
      it ends at the terminator, at another character or at the end of `s`. */
  lemma {:induction false} StrspnSpec(s: seq<char>, from: nat, accept: seq<char>)
    requires from <= |s|
    ensures forall i :: from <= i < from + Strspn(s, from, accept) ==> s[i] != '\0' && s[i] in accept
    ensures var n := Strspn(s, from, accept);
            from + n < |s| ==> s[from + n] == '\0' || s[from + n] !in accept
    decreases |s| - from
  {
    if !(from == |s| || s[from] == '\0' || s[from] !in accept) {
      StrspnSpec(s, from + 1, accept);
    }
  }

  /** strchr(chars, c) != nullptr: strchr also finds the terminator of
      `chars`, so it reports true for the NUL character. */
  function Strchr(chars: seq<char>, c: char): (found: bool)
    requires NoNul(chars)
    ensures found <==> c == '\0' || exists i :: 0 <= i < |chars| && chars[i] == c
  {
    c == '\0' || c in chars
  }

  /** The contents of `s` after memmove(s + to, s + from, n) towards the
      front: the `n` characters from `from` on now start at `to`. */
  function MovedLeft(s: seq<char>, to: nat, from: nat, n: nat): (r: seq<char>)
    requires to <= from && from + n <= |s|
    ensures |r| == |s|
    decreases n
  {
    if n == 0 then s else MovedLeft(s[to := s[from]], to + 1, from + 1, n - 1)
  }

  /** One character of a moved sequence: the `n` characters from `from` on
      land at `to` on, and everything else stays. */
  lemma {:induction false} MovedLeftAt(s: seq<char>, to: nat, from: nat, n: nat, k: nat)
    requires to <= from && from + n <= |s| && k < |s|
    ensures MovedLeft(s, to, from, n)[k] == if to <= k < to + n then s[from + k - to] else s[k]
    decreases n
  {
    if n > 0 {
      MovedLeftAt(s[to := s[from]], to + 1, from + 1, n - 1, k);
    }
  }

  /** memmove(a + to, a + from, n) for a move towards the front of the
      array: a forward copy is safe because the destination never runs
      ahead of the source. */
  method MoveLeft(a: array<char>, to: nat, from: nat, n: nat)
    requires to <= from && from + n <= a.Length
    modifies a
    ensures a[..] == MovedLeft(old(a[..]), to, from, n)
  {
    ghost var s := a[..];
    var i := 0;
    while i < n
      invariant 0 <= i <= n
      invariant MovedLeft(a[..], to + i, from + i, n - i) == MovedLeft(s, to, from, n)
    {
      ghost var b := a[..];
      a[to + i] := a[from + i];
      assert a[..] == b[to + i := b[from + i]];
      i := i + 1;
    }
  }

  /** The contents of `s` after the characters of `w` are written from
      position `at` on. */
  function Written(s: seq<char>, at: nat, w: seq<char>): (r: seq<char>)
    requires at + |w| <= |s|
    ensures |r| == |s|
    decreases |w|
  {
    if w == [] then s else Written(s[at := w[0]], at + 1, w[1..])
  }

  /** One character of a written sequence. */
  lemma {:induction false} WrittenAt(s: seq<char>, at: nat, w: seq<char>, k: nat)
    requires at + |w| <= |s| && k < |s|
    ensures Written(s, at, w)[k] == if at <= k < at + |w| then w[k - at] else s[k]
    decreases |w|
  {
    if w != [] {
      WrittenAt(s[at := w[0]], at + 1, w[1..], k);
    }
  }

  /** Writes the characters of `w` into `a` from position `at` on. */
  method WriteAt(a: array<char>, at: nat, w: seq<char>)
    requires at + |w| <= a.Length
    modifies a
    ensures a[..] == Written(old(a[..]), at, w)
  {
    ghost var s := a[..];
    forall i | at <= i < at + |w| {
      a[i] := w[i - at];
    }
    forall k | 0 <= k < a.Length
      ensures a[..][k] == Written(s, at, w)[k]
    {
      WrittenAt(s, at, w, k);
    }
  }

  /** `r` starts with `p` and agrees with `s` from there on. */
  predicate Prefixed(r: seq<char>, p: seq<char>, s: seq<char>) {
    && |r| == |s| && |p| <= |s|
    && (forall k :: 0 <= k < |p| ==> r[k] == p[k])
    && (forall k :: |p| <= k < |s| ==> r[k] == s[k])
  }

  /** Writing `w` right after the prefix `p` extends the prefix by `w`. */
  lemma {:induction false} WrittenPrefixed(r: seq<char>, p: seq<char>, s: seq<char>, w: seq<char>)
    requires Prefixed(r, p, s) && |p| + |w| <= |s|
    ensures Prefixed(Written(r, |p|, w), p + w, s)
  {
    forall k | 0 <= k < |r| {
      WrittenAt(r, |p|, w, k);
    }
  }

  /** A sequence that starts with `p` and agrees with `s` after it is `p`
      followed by the rest of `s`. */
  lemma {:induction false} Spliced(r: seq<char>, p: seq<char>, s: seq<char>)
    requires Prefixed(r, p, s)
    ensures r == p + s[|p|..]
  {
    var t := p + s[|p|..];
    forall k | 0 <= k < |r|
      ensures r[k] == t[k]
    {
      if k >= |p| {
        assert t[k] == s[|p|..][k - |p|];
      }
    }
  }


}
