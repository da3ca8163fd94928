/** The tokenizer calls the reader makes, each stated on the pending text
    alone, in the terms ReaderSpec's functions use: how much of it a call
    consumes, what it returns and what token it leaves. */
module ReaderSteps {
  import opened CStrings
  import opened Escapes
  import opened TokenizerSpec
  import opened ReaderSpec
  import opened Tokenizers
  import TS = TokenizerStates

  /** The tokenizer has not aborted and its buffer has just been refilled,
      with no token: what a peek leaves. */
  ghost predicate Ready(t: Tokenizer)
    reads t, t.buffer
  {
    t.Valid() && !t.aborted && TS.Refilled(t.State(), t.input)
  }

  /** pop() right after a peek that saw a character consumes exactly that
      character, and leaves the buffer refilled. */
  lemma {:induction false} PopAfterPeek(s: TS.State, input: seq<char>)
    requires TS.Refilled(s, input) && TS.Pending(s, input) != []
    ensures TS.Refilled(TS.Pop(s, input), input)
    ensures TS.Pending(TS.Pop(s, input), input) == Suffix(TS.Pending(s, input), 1)
  {
    assert |s.buffer[..s.bufferLength]| == s.bufferLength;
    TS.PopKeeps(s, input);
  }

  /** skip(whitespace): the run of whitespace at the front is consumed; an
      aborted tokenizer is left as it is. */
  method SkipSpace(t: Tokenizer)
    requires t.Valid()
    modifies t`inputCharsRead, t`bufferLength, t`stopPosition, t`stopChar, t.buffer
    ensures t.Valid() && t.aborted == old(t.aborted)
    ensures !t.aborted ==> t.Pending() == SkipWs(old(t.Pending()))
    ensures t.aborted ==> t.State() == old(t.State())
  {
    ghost var s0 := t.State();
    assert NoNul(Whitespace);
    if !t.aborted {
      TS.SkipKeeps(s0, t.input, Whitespace);
    }
    t.Skip(Whitespace);
    if !t.aborted {
      SuffixAdd(t.input, TS.Consumed(s0), SpanLen(TS.Pending(s0, t.input), Whitespace), TS.Consumed(t.State()));
    }
  }

  /** peek(chars): the next pending character when it is one of `chars`,
      NUL otherwise; nothing is consumed. */
  method PeekFor(t: Tokenizer, chars: seq<char>) returns (c: char)
    requires t.Valid() && NoNul(chars)
    modifies t`inputCharsRead, t`bufferLength, t`stopPosition, t`stopChar, t.buffer
    ensures t.Valid() && t.aborted == old(t.aborted)
    ensures !t.aborted ==> Ready(t) && t.Pending() == old(t.Pending()) && c == PeekIn(t.Pending(), chars)
    ensures t.aborted ==> c == '\0' && t.State() == old(t.State())
  {
    ghost var s0 := t.State();
    if !t.aborted {
      TS.PeekKeeps(s0, t.input, chars);
    }
    c := t.Peek(chars);
  }

  /** pop() after a peek that saw a character: that character is consumed. */
  method Consume(t: Tokenizer)
    requires Ready(t) && t.Pending() != []
    modifies t`inputCharsRead, t`bufferLength, t`stopPosition, t`stopChar, t.buffer
    ensures Ready(t) && t.Pending() == Suffix(old(t.Pending()), 1)
  {
    PopAfterPeek(t.State(), t.input);
    t.Pop();
  }

  /** pop() after a scan: the token is discarded and nothing is consumed. */
  method Discard(t: Tokenizer)
    requires t.Valid() && !t.aborted && TS.HasToken(t.State())
    modifies t`inputCharsRead, t`bufferLength, t`stopPosition, t`stopChar, t.buffer
    ensures Ready(t) && t.Pending() == old(t.Pending())
  {
    TS.PopKeeps(t.State(), t.input);
    t.Pop();
  }

  /** nextUntil (`until`) or nextWhile: the token is the front of the
      pending text up to the first unescaped stop within the window, and is
      consumed; the character at the stop is returned, NUL at the window's
      end. */
  method ScanToken(t: Tokenizer, chars: seq<char>, esc: char, until: bool) returns (c: char)
    requires t.Valid() && !t.aborted && NoNul(chars)
    modifies t`inputCharsRead, t`bufferLength, t`stopPosition, t`stopChar, t.buffer
    ensures t.Valid() && !t.aborted
    ensures t.Current() == Token(old(t.Pending()), t.maxTokenLength, chars, esc, until).0
    ensures t.Pending() == Token(old(t.Pending()), t.maxTokenLength, chars, esc, until).1
    ensures var w := Window(old(t.Pending()), t.maxTokenLength);
            var k := ScanLen(w, chars, esc, until, 0);
            && TS.Token(t.State()) == t.Current()
            && c == (if k < |w| then w[k] else '\0')
            && (|w| > 0 ==> TS.HasToken(t.State()))
            && (k < |w| ==> t.Pending() != [])
  {
    TS.NextKeeps(t.State(), t.input, chars, esc, until);
    if until {
      c := t.NextUntil(chars, esc);
    } else {
      c := t.NextWhile(chars, esc);
    }
  }

  /** handleEscapedChars('\\', the JSON handler) on a token whose escapes
      pair up: the token becomes its rewrite; nothing is consumed. */
  method Unescape(t: Tokenizer)
    requires t.Valid() && !t.aborted && TS.HasToken(t.State())
    requires Paired(TS.Token(t.State()), '\\')
    modifies t`bufferLength, t`stopPosition, t.buffer
    ensures t.Valid() && !t.aborted && TS.HasToken(t.State())
    ensures t.Current() == Rewrite(old(TS.Token(t.State())), '\\', JsonHandler)
    ensures t.Pending() == old(t.Pending())
  {
    TS.HandleEscapedKeeps(t.State(), t.input, '\\', JsonHandler);
    t.HandleEscapedChars('\\', JsonHandler);
  }
}
