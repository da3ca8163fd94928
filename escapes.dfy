/** Escape sequences: how the tokenizer decides that a character is escaped,
    the two escape handlers (the tokenizer's default one and the JSON one),
    the in-place rewrite they drive, and the escaping the writer applies. */
module Escapes {
  import opened CStrings

  /** The number of consecutive `e` characters immediately before position
      `k` of `s`. */
  function RunBefore(s: seq<char>, k: nat, e: char): (n: nat)
    requires k <= |s|
    ensures n <= k
    decreases k
  {
    if k == 0 || s[k - 1] != e then 0 else 1 + RunBefore(s, k - 1, e)
  }

  /** The run is made of `e` and is preceded by a character other than `e`
      or by the start of `s`; no other length is. */
  lemma {:induction false} RunBeforeSpec(s: seq<char>, k: nat, e: char, n: nat)
    requires n <= k <= |s|
    ensures RunBefore(s, k, e) == n <==>
              (forall i :: k - n <= i < k ==> s[i] == e) && (n < k ==> s[k - n - 1] != e)
    decreases k
  {
    if k > 0 && s[k - 1] == e && n > 0 {
      RunBeforeSpec(s, k - 1, e, n - 1);
    }
  }

  /** The run before `k` depends only on the characters before `k`. */
  lemma {:induction false} RunBeforeAgree(s: seq<char>, t: seq<char>, k: nat, e: char)
    requires k <= |s| && k <= |t|
    requires forall i :: 0 <= i < k ==> s[i] == t[i]
    ensures RunBefore(s, k, e) == RunBefore(t, k, e)
    decreases k
  {
    if k > 0 {
      RunBeforeAgree(s, t, k - 1, e);
    }
  }

  /** The run before `k`, seen from the suffix that starts at `d`: it stays
      inside the suffix unless the suffix up to `k` is all `e`, in which case
      it reaches back before `d`. */
  lemma {:induction false} RunBeforeSuffix(t: seq<char>, d: nat, k: nat, e: char)
    requires d <= k <= |t|
    ensures RunBefore(t, k, e)
         == if RunBefore(t[d..], k - d, e) < k - d then RunBefore(t[d..], k - d, e)
            else (k - d) + RunBefore(t, d, e)
    decreases k
  {
    if k > d {
      assert t[d..][k - d - 1] == t[k - 1];
      RunBeforeSuffix(t, d, k - 1, e);
    }
  }

  /** Read from the front, every escape character has a character after it
      that it escapes: no escape character is left dangling at the end. */
  predicate Paired(t: seq<char>, e: char)
    decreases |t|
  {
    if t == [] then true
    else if t[0] == e then |t| >= 2 && Paired(t[2..], e)
    else Paired(t[1..], e)
  }

  /** Escape characters pair up from the front exactly when the run of
      escape characters at the end has even length. */
  lemma {:induction false} PairedIffEvenRun(t: seq<char>, e: char)
    ensures Paired(t, e) <==> RunBefore(t, |t|, e) % 2 == 0
    decreases |t|
  {
    if t == [] {
    } else if t[0] == e && |t| == 1 {
      assert RunBefore(t, 1, e) == 1 + RunBefore(t, 0, e);
    } else if t[0] == e {
      PairedIffEvenRun(t[2..], e);
      RunBeforeSuffix(t, 2, |t|, e);
      assert RunBefore(t, 1, e) == 1;
      assert RunBefore(t, 2, e) == if t[1] == e then 2 else 0;
    } else {
      PairedIffEvenRun(t[1..], e);
      RunBeforeSuffix(t, 1, |t|, e);
    }
  }

  /** The number of escape pairs in a paired text. */
  function EscapeCount(t: seq<char>, e: char): nat
    requires Paired(t, e)
    decreases |t|
  {
    if t == [] then 0
    else if t[0] == e then 1 + EscapeCount(t[2..], e)
    else EscapeCount(t[1..], e)
  }

  /** The handler a tokenizer's escape rewrite calls at each escape. */
  datatype EscapeHandler = DefaultHandler | JsonHandler

  /** defaultEscapeHandler: for the escape character followed by `c` it
      writes `c` alone and reports one source character skipped. */
  function DefaultEscapeHandler(c: char): (r: (seq<char>, nat))
    ensures |r.0| + r.1 == 2
    ensures r.0 == [c]
  {
    ([c], 1)
  }

  /** The sequences that the JSON handler turns into one character. */
  const JsonEscapes: seq<char> := "\"\\/bfnrt"

  /** jsonEscapeHandler: `\"`, `\\`, `\/`, `\b`, `\f`, `\n`, `\r` and `\t`
      become one character and one source character is reported skipped;
      any other escape, `\u` included, is written out whole and nothing is
      skipped. */
  function JsonEscapeHandler(c: char): (r: (seq<char>, nat))
    ensures |r.0| + r.1 == 2
    ensures r.1 == 1 <==> c in JsonEscapes
    ensures r.1 == 0 ==> r.0 == ['\\', c]
    ensures c != '\0' ==> NoNul(r.0)
    ensures c == '"' || c == '\\' || c == '/' ==> r.0 == [c]
  {
    match c
    case '"' => (['"'], 1)
    case '\\' => (['\\'], 1)
    case '/' => (['/'], 1)
    case 'b' => (['\U{8}'], 1)
    case 'f' => (['\U{C}'], 1)
    case 'n' => (['\n'], 1)
    case 'r' => (['\r'], 1)
    case 't' => (['\t'], 1)
    case _ => (['\\', c], 0)
  }

  function Handle(h: EscapeHandler, c: char): (r: (seq<char>, nat))
    ensures |r.0| + r.1 == 2 && 1 <= |r.0|
    ensures c != '\0' ==> NoNul(r.0)
  {
    match h
    case DefaultHandler => DefaultEscapeHandler(c)
    case JsonHandler => JsonEscapeHandler(c)
  }

  /** The text that handleEscapedChars leaves in place of the token `t`:
      every escape character and the character after it are replaced by what
      the handler writes; every other character is copied unchanged. */
  function Rewrite(t: seq<char>, e: char, h: EscapeHandler): (r: seq<char>)
    requires Paired(t, e)
    ensures |r| <= |t| && (|t| > 0 ==> |r| > 0)
    ensures h == DefaultHandler ==> |r| == |t| - EscapeCount(t, e)
    decreases |t|
  {
    if t == [] then []
    else if t[0] == e then Handle(h, t[1]).0 + Rewrite(t[2..], e, h)
    else [t[0]] + Rewrite(t[1..], e, h)
  }

  /** Rewriting never produces a terminator out of a C string. */
  lemma {:induction false} RewriteNoNul(t: seq<char>, e: char, h: EscapeHandler)
    requires Paired(t, e) && NoNul(t)
    ensures NoNul(Rewrite(t, e, h))
    decreases |t|
  {
    if t != [] {
      if t[0] == e {
        RewriteNoNul(t[2..], e, h);
      } else {
        RewriteNoNul(t[1..], e, h);
      }
    }
  }

  /** A token without escape characters is left as it is. */
  lemma {:induction false} RewriteWithoutEscapes(t: seq<char>, e: char, h: EscapeHandler)
    requires e !in t
    ensures Paired(t, e) && Rewrite(t, e, h) == t
    decreases |t|
  {
    if t != [] {
      assert t == [t[0]] + t[1..];
      RewriteWithoutEscapes(t[1..], e, h);
    }
  }

  /** Paired, read from position `i` of `t` by index rather than on the
      slice `t[i..]`; the copy loop of the rewrite tracks its progress so. */
  predicate PairedFrom(t: seq<char>, i: nat, e: char)
    requires i <= |t|
    decreases |t| - i
  {
    if i == |t| then true
    else if t[i] == e then i + 2 <= |t| && PairedFrom(t, i + 2, e)
    else PairedFrom(t, i + 1, e)
  }

  /** Rewrite of the suffix of `t` from position `i`, by index. */
  function RewriteFrom(t: seq<char>, i: nat, e: char, h: EscapeHandler): seq<char>
    requires i <= |t| && PairedFrom(t, i, e)
    decreases |t| - i
  {
    if i == |t| then []
    else if t[i] == e then Handle(h, t[i + 1]).0 + RewriteFrom(t, i + 2, e, h)
    else [t[i]] + RewriteFrom(t, i + 1, e, h)
  }

  /** The index-based reading agrees with the slice-based one. */
  lemma {:induction false} RewriteFromSlice(t: seq<char>, i: nat, e: char, h: EscapeHandler)
    requires i <= |t|
    ensures PairedFrom(t, i, e) == Paired(t[i..], e)
    ensures PairedFrom(t, i, e) ==> RewriteFrom(t, i, e, h) == Rewrite(t[i..], e, h)
    decreases |t| - i
  {
    if i < |t| {
      assert t[i..][0] == t[i];
      if t[i] == e {
        if i + 2 <= |t| {
          assert t[i..][1] == t[i + 1];
          assert t[i..][2..] == t[i + 2..];
          RewriteFromSlice(t, i + 2, e, h);
        }
      } else {
        assert t[i..][1..] == t[i + 1..];
        RewriteFromSlice(t, i + 1, e, h);
      }
    }
  }

  /** A step of the copy loop over an escape: when `r` is the output so far
      followed by the rewrite from `i`, it stays so once the output grows by
      what the handler writes and the position moves past the pair. */
  lemma {:induction false} RewriteFromEscape(t: seq<char>, i: nat, out: seq<char>, r: seq<char>, e: char, h: EscapeHandler)
    requires i < |t| && PairedFrom(t, i, e) && t[i] == e
    requires r == out + RewriteFrom(t, i, e, h)
    ensures i + 2 <= |t| && PairedFrom(t, i + 2, e)
    ensures r == (out + Handle(h, t[i + 1]).0) + RewriteFrom(t, i + 2, e, h)
  {
    var w := Handle(h, t[i + 1]).0;
    assert RewriteFrom(t, i, e, h) == w + RewriteFrom(t, i + 2, e, h);
    AppendAssoc(out, w, RewriteFrom(t, i + 2, e, h));
  }

  /** A step of the copy loop over a plain character, which is copied. */
  lemma {:induction false} RewriteFromPlain(t: seq<char>, i: nat, out: seq<char>, r: seq<char>, e: char, h: EscapeHandler)
    requires i < |t| && PairedFrom(t, i, e) && t[i] != e
    requires r == out + RewriteFrom(t, i, e, h)
    ensures PairedFrom(t, i + 1, e)
    ensures r == (out + [t[i]]) + RewriteFrom(t, i + 1, e, h)
  {
    assert RewriteFrom(t, i, e, h) == [t[i]] + RewriteFrom(t, i + 1, e, h);
    AppendAssoc(out, [t[i]], RewriteFrom(t, i + 1, e, h));
  }

  /** A proof helper: concatenation regrouped, stated on its own so that
      the copy-loop lemmas stay cheap. */
  lemma {:induction false} AppendAssoc(a: seq<char>, b: seq<char>, c: seq<char>)
    ensures a + (b + c) == (a + b) + c
  {
  }

  /** The writer's escaping: the escape character `e` and each character of
      `special` get `e` written in front of them. */
  function Escape(s: seq<char>, e: char, special: seq<char>): (r: seq<char>)
    ensures |r| >= |s|
    ensures NoNul(s) && e != '\0' ==> NoNul(r)
    decreases |s|
  {
    if s == [] then []
    else (if s[0] == e || s[0] in special then [e, s[0]] else [s[0]]) + Escape(s[1..], e, special)
  }

  /** Escaped text always pairs up, and the default handler undoes the
      escaping exactly. */
  lemma {:induction false} DefaultRewriteUndoesEscape(s: seq<char>, e: char, special: seq<char>)
    ensures Paired(Escape(s, e, special), e)
    ensures Rewrite(Escape(s, e, special), e, DefaultHandler) == s
    decreases |s|
  {
    if s != [] {
      DefaultRewriteUndoesEscape(s[1..], e, special);
      var x := Escape(s, e, special);
      var tail := Escape(s[1..], e, special);
      if s[0] == e || s[0] in special {
        assert x == [e, s[0]] + tail;
        assert x[2..] == tail;
      } else {
        assert x == [s[0]] + tail;
        assert x[1..] == tail;
      }
    }
  }

  /** Escaping one more character appends its escape. */
  lemma {:induction false} EscapeSnoc(s: seq<char>, c: char, e: char, special: seq<char>)
    ensures Escape(s + [c], e, special)
            == Escape(s, e, special) + (if c == e || c in special then [e, c] else [c])
    decreases |s|
  {
    if s == [] {
      assert [c][1..] == [];
    } else {
      assert (s + [c])[1..] == s[1..] + [c];
      EscapeSnoc(s[1..], c, e, special);
    }
  }

  /** The JSON handler, which a reader uses on strings, also undoes the
      writer's escaping of backslashes and quotes exactly. */
  lemma {:induction false} JsonRewriteUndoesEscape(s: seq<char>)
    ensures Paired(Escape(s, '\\', "\""), '\\')
    ensures Rewrite(Escape(s, '\\', "\""), '\\', JsonHandler) == s
    decreases |s|
  {
    DefaultRewriteUndoesEscape(s, '\\', "\"");
    if s != [] {
      JsonRewriteUndoesEscape(s[1..]);
      var x := Escape(s, '\\', "\"");
      var tail := Escape(s[1..], '\\', "\"");
      if s[0] == '\\' || s[0] in "\"" {
        assert x == ['\\', s[0]] + tail;
        assert x[2..] == tail;
      } else {
        assert x == [s[0]] + tail;
        assert x[1..] == tail;
      }
    }
  }
}
