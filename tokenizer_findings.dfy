/** Two places where Tokenizer.h, as written, breaks what the rest of the
    tokenizer relies on. Each is modelled here as written, with a concrete
    input that shows the break; the Tokenizer class models the corrected
    behaviour (nextUntil and nextWhile return the character at the stop,
    handleEscapedChars moves the terminator along with the rest). */
module TokenizerFindings {
  import opened CStrings
  import opened Escapes
  import opened TokenizerBuffer
  import opened TokenizerSpec
  import ReaderSpec
  import Toolbox

  /** size_t arithmetic: values wrap around modulo 2^64. */
  const SizeTModulus: int := 0x1_0000_0000_0000_0000

  function SizeT(n: int): (r: nat)
    ensures r < SizeTModulus && (0 <= n < SizeTModulus ==> r == n)
  {
    n % SizeTModulus
  }

  /** The loop of nextUntil as written, over a buffer `b` holding a C
      string, from stop position `sp` with `_stopChar` holding `sc`: the
      stop position it ends at, and the value of `_stopChar` then, which is
      what nextUntil returns. `_stopChar` is only assigned inside the loop,
      so when an escaped stop is the last character before the terminator
      the loop ends with `_stopChar` still holding that escaped stop. */
  function UntilAsWritten(b: seq<char>, sp: nat, chars: seq<char>, esc: char, sc: char): (r: (nat, char))
    requires sp < |b| && b[|b| - 1] == '\0'
    ensures sp <= r.0 < |b|
    decreases |b| - sp
  {
    if b[sp] == '\0' then (sp, sc)
    else
      StrcspnSpec(b, sp, chars);
      var k := sp + Strcspn(b, sp, chars);
      var c := b[k];
      if k != 0 && c != '\0' && RunBefore(b, k, esc) % 2 == 1 then UntilAsWritten(b, k + 1, chars, esc, c)
      else (k, c)
  }

  /** The unterminated string `"\"`: after its opening quote is consumed the
      buffer holds a backslash and a quote. The quote is escaped, so the
      scan runs on to the terminator, yet nextUntil returns `"`, and
      Value::parse takes the string as closed. handleEscapedChars then
      computes its memmove length `_bufferLength - _stopPosition - 1` with
      the stop position at the buffer length, which wraps around to the
      largest size_t. */
  lemma {:induction false} UnterminatedStringAccepted()
    ensures var b := ['\\', '"', '\0'];
            var r := UntilAsWritten(b, 0, "\"", '\\', '\0');
            && r == (2, '"') && b[r.0] == '\0'
            && SizeT(2 - r.0 - 1) == SizeTModulus - 1
  {
    var b := ['\\', '"', '\0'];
    assert Strcspn(b, 1, "\"") == 0;
    assert Strcspn(b, 0, "\"") == 1;
    assert RunBefore(b, 1, '\\') == 1 by {
      assert RunBefore(b, 0, '\\') == 0;
    }
    assert UntilAsWritten(b, 2, "\"", '\\', '"') == (2, '"');
  }

  /** With the corrected nextUntil, which returns the character at the
      stop, the same string fails whatever the window size: no quote ends
      it. */
  lemma {:induction false} UnterminatedStringRejected(max: nat)
    ensures ReaderSpec.StringAt(['"', '\\', '"'], max) == Toolbox.None
  {
    var q := ['"', '\\', '"'];
    var t := ['\\', '"'];
    assert Suffix(q, 1) == t;
    var w := Window(t, max);
    assert RunBefore(t, 1, '\\') == 1 by {
      assert RunBefore(t, 0, '\\') == 0;
    }
    if max >= 2 {
      assert w == t;
      assert ScanLen(w, "\"", '\\', true, 2) == 2;
      assert ScanLen(w, "\"", '\\', true, 1) == 2;
    } else if max == 1 {
      assert w == ['\\'];
      assert ScanLen(w, "\"", '\\', true, 1) == 1;
    }
  }

  /** The end of handleEscapedChars as written: the terminator at the stop
      position is copied to `d`, right after the rewritten token, and the
      `bufferLength - sp - 1` characters after the stop position are moved
      after it, which leaves out the terminator at `bufferLength`. */
  function CloseAsWritten(b: seq<char>, d: nat, sp: nat, bufferLength: nat): (r: seq<char>)
    requires d <= sp < bufferLength < |b|
    ensures |r| == |b|
  {
    CloseGap(b, d, sp, bufferLength - sp - 1)
  }

  /** A token `\n` cut before the text `x`, the buffer holding
      `\`, `n`, NUL, `x` and the terminator: the rewrite leaves a newline and
      an unused `n`, and the two characters of the token become one, so the
      buffer length drops from 4 to 3. As written, the character at the new
      length is `x`, not the terminator; the corrected move, one character
      longer, leaves the terminator there. */
  lemma {:induction false} TerminatorLost()
    ensures var b := ['\n', 'n', '\0', 'x', '\0'];
            && CloseAsWritten(b, 1, 2, 4)[3] == 'x'
            && CloseGap(b, 1, 2, 4 - 2)[3] == '\0'
  {
    var b := ['\n', 'n', '\0', 'x', '\0'];
    CloseGapSplits(b, 1, 2, 1);
    CloseGapSplits(b, 1, 2, 2);
  }
}
