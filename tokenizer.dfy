/** The streaming tokenizer: a fixed buffer of maxTokenLength+1 characters
    refilled from the input, with escape-aware scans that cut the buffer
    with a NUL at the stop position and keep the overwritten character in
    `stopChar`, and a small table of stored tokens. Each operation is proved
    to change the fields exactly as the matching function of
    TokenizerStates says; what those functions keep is proved there. */
module Tokenizers {
  import opened CStrings
  import opened Escapes
  import opened TokenizerSpec
  import TS = TokenizerStates

  class Tokenizer {
    /** MAX_TOKEN_LENGTH */
    const maxTokenLength: nat
    /** MAX_TOKENS of the storing tokenizer */
    const maxTokens: nat
    /** The whole text the input will ever deliver; the input's own read
        cursor is `inputCharsRead`, because the tokenizer is its only reader. */
    const input: seq<char>
    const buffer: array<char>
    var inputCharsRead: nat
    var aborted: bool
    var bufferLength: nat
    var stopPosition: nat
    var stopChar: char
    /** The token storage slots. */
    var tokens: seq<seq<char>>

    /** The fields the scanning operations change, as a value. */
    ghost function State(): TS.State
      reads this`inputCharsRead, this`bufferLength, this`stopPosition, this`stopChar, buffer
    {
      TS.State(buffer[..], bufferLength, stopPosition, stopChar, inputCharsRead)
    }

    /** The storage slots hold C strings that fit the buffer. */
    ghost predicate SlotsFit()
      reads this`tokens
    {
      && |tokens| == maxTokens
      && (forall i :: 0 <= i < maxTokens ==> NoNul(tokens[i]) && |tokens[i]| <= maxTokenLength)
    }

    /** The tokenizer's invariant: the buffer has MAX_TOKEN_LENGTH + 1
        places and the state is valid over the input. */
    ghost predicate Valid()
      reads this`inputCharsRead, this`bufferLength, this`stopPosition, this`stopChar, buffer, this`tokens
    {
      buffer.Length == maxTokenLength + 1 && TS.Valid(State(), input) && SlotsFit()
    }

    /** The text not consumed yet. */
    ghost function Pending(): seq<char>
      reads this`inputCharsRead, this`bufferLength, this`stopPosition, this`stopChar, buffer, this`tokens
      requires Valid()
    {
      TS.Pending(State(), input)
    }

    /** current(): the C string at the front of the buffer. */
    function Current(): (s: seq<char>)
      reads buffer
      ensures s == TS.Current(State())
    {
      CStr(buffer[..])
    }

    /** positionInInput(): the input offset of the front of the buffer, so
        the pending text starts `stopPosition` characters after it. */
    function PositionInInput(): (n: int)
      reads this`inputCharsRead, this`bufferLength, this`stopPosition, this`stopChar, buffer, this`tokens
      requires Valid()
      ensures 0 <= n && n + stopPosition + |Pending()| == |input|
    {
      inputCharsRead - bufferLength
    }

    /** completed(): not aborted and the input has nothing left to deliver,
        so all the pending text is in the buffer. */
    function Completed(): (done: bool)
      reads this`inputCharsRead, this`bufferLength, this`stopPosition, this`stopChar, buffer, this`tokens, this`aborted
      requires Valid()
      ensures done <==> !aborted && |Pending()| == bufferLength - stopPosition
    {
      !aborted && inputCharsRead == |input|
    }

    /** storedToken(index): the slot's text, or the empty text for an index
        outside the table. */
    function StoredToken(index: nat): (s: seq<char>)
      reads this`tokens
      requires |tokens| == maxTokens
      ensures index >= maxTokens ==> s == []
      ensures index < maxTokens ==> s == tokens[index]
    {
      if index < maxTokens then tokens[index] else []
    }

    constructor (input: seq<char>, maxTokenLength: nat, maxTokens: nat)
      requires NoNul(input) && maxTokenLength > 0
      ensures Valid() && fresh(buffer)
      ensures this.input == input && this.maxTokenLength == maxTokenLength && this.maxTokens == maxTokens
      ensures Pending() == input && !aborted && !TS.HasToken(State()) && PositionInInput() == 0
      ensures tokens == seq(maxTokens, _ => [])
    {
      this.input := input;
      this.maxTokenLength := maxTokenLength;
      this.maxTokens := maxTokens;
      buffer := new char[maxTokenLength + 1](_ => '\0');
      inputCharsRead := 0;
      aborted := false;
      bufferLength := 0;
      stopPosition := 0;
      stopChar := '\0';
      tokens := seq(maxTokens, _ => []);
      new;
      assert buffer[0] == '\0';
      assert State().buffer[0] == '\0';
      assert TS.Valid(State(), input);
      assert forall i :: 0 <= i < maxTokens ==> tokens[i] == [];
    }

    /** abort(): the latch that turns every later scan into a no-op. */
    method Abort()
      requires Valid()
      modifies this`aborted
      ensures Valid() && aborted
    {
      aborted := true;
    }

    /** shiftBufferToStopPosition() */
    method ShiftBufferToStopPosition()
      requires stopPosition <= bufferLength < buffer.Length
      modifies this`bufferLength, this`stopPosition, this`stopChar, buffer
      ensures State() == TS.Shift(old(State()))
    {
      if bufferLength > 0 && buffer[stopPosition] == '\0' {
        var bufferSizeToShift := bufferLength - stopPosition + 1;
        MoveLeft(buffer, 0, stopPosition, bufferSizeToShift);
        bufferLength := bufferSizeToShift - 1;
        stopPosition := 0;
        buffer[stopPosition] := stopChar;
        stopChar := '\0';
      }
    }

    /** readString(buffer + at, n) of the input: copies as many of the next
        input characters as there are, up to `n`. */
    method ReadString(at: nat, n: nat) returns (count: nat)
      requires at + n <= buffer.Length && inputCharsRead <= |input|
      modifies buffer
      ensures count == Min(n, |input| - inputCharsRead)
      ensures buffer[..] == Written(old(buffer[..]), at, input[inputCharsRead..inputCharsRead + count])
    {
      count := Min(n, |input| - inputCharsRead);
      WriteAt(buffer, at, input[inputCharsRead..inputCharsRead + count]);
    }

    /** fillBuffer() */
    method FillBuffer()
      requires buffer.Length == maxTokenLength + 1
      requires bufferLength < buffer.Length && inputCharsRead <= |input|
      modifies this`inputCharsRead, this`bufferLength, buffer
      ensures State() == TS.Fill(old(State()), input)
    {
      if bufferLength < maxTokenLength && inputCharsRead < |input| {
        var charsRead := ReadString(bufferLength, maxTokenLength - bufferLength);
        inputCharsRead := inputCharsRead + charsRead;
        bufferLength := bufferLength + charsRead;
        buffer[bufferLength] := '\0';
      }
    }

    /** The start of every reading operation: shiftBufferToStopPosition(),
        then fillBuffer(). */
    method Refill()
      requires buffer.Length == maxTokenLength + 1
      requires stopPosition <= bufferLength < buffer.Length && inputCharsRead <= |input|
      modifies this`inputCharsRead, this`bufferLength, this`stopPosition, this`stopChar, buffer
      ensures State() == TS.Refill(old(State()), input)
    {
      ShiftBufferToStopPosition();
      FillBuffer();
    }

    /** isEscaped(escapeChar): whether an odd number of escape characters
        immediately precede the stop position. */
    method IsEscaped(escapeChar: char) returns (escaped: bool)
      requires stopPosition <= buffer.Length
      ensures escaped == (stopPosition != 0 && stopChar != '\0'
                          && RunBefore(buffer[..], stopPosition, escapeChar) % 2 == 1)
    {
      if stopPosition == 0 || stopChar == '\0' {
        return false;
      }
      escaped := false;
      var i := stopPosition;
      while i > 0
        invariant 0 <= i <= stopPosition
        invariant forall j :: i <= j < stopPosition ==> buffer[j] == escapeChar
        invariant escaped == ((stopPosition - i) % 2 == 1)
      {
        if buffer[i - 1] == escapeChar {
          escaped := !escaped;
        } else {
          break;
        }
        i := i - 1;
      }
      ghost var s := buffer[..];
      assert forall j :: i <= j < stopPosition ==> s[j] == escapeChar;
      assert i > 0 ==> s[i - 1] != escapeChar;
      RunBeforeSpec(s, stopPosition, escapeChar, stopPosition - i);
    }

    /** The loop of nextUntil: it moves the stop position with strcspn and
        steps over escaped stops, until it reaches an unescaped stop or the
        terminator. */
    method FindUntil(chars: seq<char>, escapeChar: char)
      requires bufferLength < buffer.Length && buffer[bufferLength] == '\0'
      requires NoNul(buffer[..bufferLength]) && NoNul(chars) && stopPosition == 0
      modifies this`stopPosition, this`stopChar
      ensures stopPosition == ScanLen(buffer[..bufferLength], chars, escapeChar, true, 0)
    {
      ghost var w := buffer[..bufferLength];
      while buffer[stopPosition] != '\0'
        invariant stopPosition <= bufferLength
        invariant forall j :: 0 <= j < stopPosition ==> !StopsAt(w, j, chars, escapeChar, true)
        decreases bufferLength - stopPosition
      {
        var n := Strcspn(buffer[..], stopPosition, chars);
        StrcspnSpec(buffer[..], stopPosition, chars);
        assert buffer[..][bufferLength] == '\0';
        assert stopPosition + n <= bufferLength;
        stopPosition := stopPosition + n;
        stopChar := buffer[stopPosition];
        var escaped := IsEscaped(escapeChar);
        RunBeforeAgree(buffer[..], w, stopPosition, escapeChar);
        if escaped {
          assert stopPosition < bufferLength;
          stopPosition := stopPosition + 1;
        } else {
          break;
        }
      }
      ScanLenSpec(w, chars, escapeChar, true, 0, stopPosition);
    }

    /** The loop of nextWhile: it moves the stop position with strspn and
        steps over escaped stops, until it reaches an unescaped stop or the
        terminator. */
    method FindWhile(chars: seq<char>, escapeChar: char)
      requires bufferLength < buffer.Length && buffer[bufferLength] == '\0'
      requires NoNul(buffer[..bufferLength]) && NoNul(chars) && stopPosition == 0
      modifies this`stopPosition, this`stopChar
      ensures stopPosition == ScanLen(buffer[..bufferLength], chars, escapeChar, false, 0)
    {
      ghost var w := buffer[..bufferLength];
      while buffer[stopPosition] != '\0'
        invariant stopPosition <= bufferLength
        invariant forall j :: 0 <= j < stopPosition ==> !StopsAt(w, j, chars, escapeChar, false)
        decreases bufferLength - stopPosition
      {
        var n := Strspn(buffer[..], stopPosition, chars);
        StrspnSpec(buffer[..], stopPosition, chars);
        assert buffer[..][bufferLength] == '\0';
        assert stopPosition + n <= bufferLength;
        stopPosition := stopPosition + n;
        stopChar := buffer[stopPosition];
        var escaped := IsEscaped(escapeChar);
        RunBeforeAgree(buffer[..], w, stopPosition, escapeChar);
        if escaped {
          assert stopPosition < bufferLength;
          stopPosition := stopPosition + 1;
        } else {
          break;
        }
      }
      ScanLenSpec(w, chars, escapeChar, false, 0, stopPosition);
    }

    /** The scan shared by nextUntil and nextWhile once the buffer has been
        refilled: find the stop, then end the token there. The character
        returned is the one at the stop. */
    method ScanBuffer(chars: seq<char>, escapeChar: char, until: bool) returns (c: char)
      requires TS.Scannable(State()) && NoNul(chars)
      modifies this`stopPosition, this`stopChar, buffer
      ensures State() == TS.Scan(old(State()), chars, escapeChar, until) && c == stopChar
    {
      if until {
        FindUntil(chars, escapeChar);
      } else {
        FindWhile(chars, escapeChar);
      }
      stopChar := buffer[stopPosition];
      buffer[stopPosition] := '\0';
      c := stopChar;
    }

    /** nextUntil(stopChars, escapeChar): scans the refilled buffer up to the
        first unescaped character of `stopChars`. */
    method NextUntil(stopChars: seq<char>, escapeChar: char) returns (c: char)
      requires Valid() && NoNul(stopChars)
      modifies this`inputCharsRead, this`bufferLength, this`stopPosition, this`stopChar, buffer
      ensures old(aborted) ==> c == '\0' && unchanged(this) && unchanged(buffer)
      ensures !old(aborted) ==>
                State() == TS.Next(old(State()), input, stopChars, escapeChar, true) && c == stopChar
      ensures Valid() && aborted == old(aborted)
    {
      if aborted {
        return '\0';
      }
      ghost var s0 := State();
      TS.RefillReady(s0, input);
      TS.NextValid(s0, input, stopChars, escapeChar, true);
      Refill();
      c := ScanBuffer(stopChars, escapeChar, true);
    }

    /** nextWhile(chars, escapeChar): scans the refilled buffer up to the
        first unescaped character that is not in `chars`. */
    method NextWhile(chars: seq<char>, escapeChar: char) returns (c: char)
      requires Valid() && NoNul(chars)
      modifies this`inputCharsRead, this`bufferLength, this`stopPosition, this`stopChar, buffer
      ensures old(aborted) ==> c == '\0' && unchanged(this) && unchanged(buffer)
      ensures !old(aborted) ==>
                State() == TS.Next(old(State()), input, chars, escapeChar, false) && c == stopChar
      ensures Valid() && aborted == old(aborted)
    {
      if aborted {
        return '\0';
      }
      ghost var s0 := State();
      TS.RefillReady(s0, input);
      TS.NextValid(s0, input, chars, escapeChar, false);
      Refill();
      c := ScanBuffer(chars, escapeChar, false);
    }

    /** peek(chars): the next character if it is one of `chars`, else NUL. */
    method Peek(chars: seq<char>) returns (c: char)
      requires Valid() && NoNul(chars)
      modifies this`inputCharsRead, this`bufferLength, this`stopPosition, this`stopChar, buffer
      ensures old(aborted) ==> c == '\0' && unchanged(this) && unchanged(buffer)
      ensures !old(aborted) ==>
                State() == TS.Refill(old(State()), input) && c == TS.PeekChar(State(), chars)
      ensures Valid() && aborted == old(aborted)
    {
      if aborted {
        return '\0';
      }
      ghost var s0 := State();
      TS.RefillReady(s0, input);
      Refill();
      if Strchr(chars, buffer[0]) {
        c := buffer[0];
      } else {
        c := '\0';
      }
    }

    /** pop(): without a scanned token, consumes the next character; with
        one, only discards the token. Then refills. */
    method Pop()
      requires Valid()
      modifies this`inputCharsRead, this`bufferLength, this`stopPosition, this`stopChar, buffer
      ensures old(aborted) ==> unchanged(this) && unchanged(buffer)
      ensures !old(aborted) ==> State() == TS.Pop(old(State()), input)
      ensures Valid() && aborted == old(aborted)
    {
      if aborted {
        return;
      }
      ghost var s0 := State();
      TS.PopValid(s0, input);
      if stopPosition == 0 && buffer[stopPosition] != '\0' {
        stopPosition := 1;
        stopChar := buffer[stopPosition];
        buffer[stopPosition] := '\0';
      }
      Refill();
    }

    /** skip(chars): consumes the longest run of characters of `chars`,
        refilling the buffer as often as the run fills it. */
    method Skip(chars: seq<char>)
      requires Valid() && NoNul(chars)
      modifies this`inputCharsRead, this`bufferLength, this`stopPosition, this`stopChar, buffer
      ensures old(aborted) ==> unchanged(this) && unchanged(buffer)
      ensures !old(aborted) ==> State() == TS.Skip(old(State()), input, chars)
      ensures Valid() && aborted == old(aborted)
    {
      if aborted {
        return;
      }
      TS.SkipValid(State(), input, chars);
      SkipAll(chars);
    }

    /** skip(chars) once the abort latch has been checked: the first round
        of the do-while, the further rounds, and the end. */
    method SkipAll(chars: seq<char>)
      requires Valid() && NoNul(chars)
      modifies this`inputCharsRead, this`bufferLength, this`stopPosition, this`stopChar, buffer
      ensures State() == TS.Skip(old(State()), input, chars)
    {
      ghost var s0 := State();
      TS.SkipRoundFirst(s0, input, chars);
      SkipRound(chars);
      SkipRounds(chars);
      SkipEnd(chars);
    }

    /** The rest of skip()'s do-while: further rounds while the run covers
        the whole buffer and the input has more. */
    method SkipRounds(chars: seq<char>)
      requires buffer.Length == maxTokenLength + 1 && TS.SkipRound(State(), input, chars)
      modifies this`inputCharsRead, this`bufferLength, this`stopPosition, this`stopChar, buffer
      ensures TS.SkipRound(State(), input, chars)
      ensures !(buffer[stopPosition] == '\0' && inputCharsRead < |input|)
      ensures TS.SkipAfter(State(), input, chars) == TS.SkipAfter(old(State()), input, chars)
    {
      while buffer[stopPosition] == '\0' && inputCharsRead < |input|
        invariant TS.SkipRound(State(), input, chars)
        invariant TS.SkipAfter(State(), input, chars) == TS.SkipAfter(old(State()), input, chars)
        decreases |input| - inputCharsRead
      {
        TS.SkipRoundAgain(State(), input, chars);
        SkipRound(chars);
      }
    }

    /** A round of skip()'s do-while: refill, then put the stop position
        after the run of `chars` at the front. */
    method SkipRound(chars: seq<char>)
      requires buffer.Length == maxTokenLength + 1
      requires stopPosition <= bufferLength < buffer.Length && inputCharsRead <= |input|
      modifies this`inputCharsRead, this`bufferLength, this`stopPosition, this`stopChar, buffer
      ensures State() == TS.SkipRefill(old(State()), input, chars)
    {
      Refill();
      stopPosition := Strspn(buffer[..], 0, chars);
    }

    /** The end of skip(): a run that was found is cut off and discarded. */
    method SkipEnd(chars: seq<char>)
      requires NoNul(chars) && stopPosition <= bufferLength < buffer.Length
      modifies this`bufferLength, this`stopPosition, this`stopChar, buffer
      ensures State() == TS.SkipEnd(old(State()), chars)
    {
      if stopPosition > 0 && Strchr(chars, buffer[stopPosition - 1]) {
        stopChar := buffer[stopPosition];
        buffer[stopPosition] := '\0';
        ShiftBufferToStopPosition();
      }
    }

    /** The copy loop of handleEscapedChars: walks the token with a source
        and a destination index, copying a plain character, or writing what
        the handler makes of an escape and the character after it. The
        token's rewrite ends up at the front; the rest of the buffer is as
        it was. */
    method RewriteInPlace(escapeChar: char, handler: EscapeHandler) returns (destination: nat, skippedChars: nat)
      requires stopPosition < buffer.Length && PairedFrom(buffer[..stopPosition], 0, escapeChar)
      modifies buffer
      ensures destination + skippedChars == stopPosition
      ensures var R := RewriteFrom(old(buffer[..stopPosition]), 0, escapeChar, handler);
              destination == |R| && buffer[..] == R + old(buffer[..])[destination..]
    {
      ghost var b0 := buffer[..];
      ghost var T := buffer[..stopPosition];
      ghost var R := RewriteFrom(T, 0, escapeChar, handler);
      ghost var out := [];
      var sourceEnd := stopPosition;
      var source := 0;
      destination, skippedChars := 0, 0;
      while source < sourceEnd
        invariant destination + skippedChars == source <= sourceEnd
        invariant destination == |out|
        invariant PairedFrom(T, source, escapeChar)
        invariant R == out + RewriteFrom(T, source, escapeChar, handler)
        invariant Prefixed(buffer[..], out, b0)
        decreases sourceEnd - source
      {
        var written, step, skipped := CopyStep(escapeChar, handler, source, destination, T, R, out, b0);
        out := out + written;
        destination := destination + |written|;
        skippedChars := skippedChars + skipped;
        source := source + step;
      }
      Spliced(buffer[..], out, b0);
    }

    /** One round of the copy loop: an escape character and the character
        after it are replaced by what the handler writes, any other
        character is copied; `written` goes to `destination`. */
    method CopyStep(escapeChar: char, handler: EscapeHandler, source: nat, destination: nat,
                    ghost T: seq<char>, ghost R: seq<char>, ghost out: seq<char>, ghost b0: seq<char>)
      returns (written: seq<char>, step: nat, skipped: nat)
      requires destination == |out| <= source < |T| < |b0| && T == b0[..|T|]
      requires PairedFrom(T, source, escapeChar) && R == out + RewriteFrom(T, source, escapeChar, handler)
      requires Prefixed(buffer[..], out, b0)
      modifies buffer
      ensures |written| + skipped == step && 0 < step && source + step <= |T|
      ensures PairedFrom(T, source + step, escapeChar)
      ensures R == (out + written) + RewriteFrom(T, source + step, escapeChar, handler)
      ensures Prefixed(buffer[..], out + written, b0)
    {
      assert buffer[source] == T[source];
      if buffer[source] == escapeChar {
        RewriteFromEscape(T, source, out, R, escapeChar, handler);
        assert buffer[source + 1] == T[source + 1];
        var handled := Handle(handler, buffer[source + 1]);
        written, step, skipped := handled.0, 2, handled.1;
      } else {
        RewriteFromPlain(T, source, out, R, escapeChar, handler);
        written, step, skipped := [buffer[source]], 1, 0;
      }
      ghost var b := buffer[..];
      WriteAt(buffer, destination, written);
      WrittenPrefixed(b, out, b0, written);
    }

    /** handleEscapedChars(escapeChar, handler): rewrites the scanned token
        in place, then closes the gap: the terminator at the old stop
        position goes right after the rewritten token and the rest of the
        buffer, its terminator included, follows it. */
    method HandleEscapedChars(escapeChar: char, handler: EscapeHandler)
      requires Valid()
      requires TS.HasToken(State()) ==> Paired(TS.Token(State()), escapeChar)
      modifies this`bufferLength, this`stopPosition, buffer
      ensures State() == TS.HandleEscaped(old(State()), input, escapeChar, handler)
      ensures Valid()
    {
      TS.HandleEscapedValid(State(), input, escapeChar, handler);
      if bufferLength > 0 && buffer[stopPosition] == '\0' {
        RewriteToken(escapeChar, handler);
      }
    }

    /** handleEscapedChars on a scanned token: the copy loop, then the gap
        closed. */
    method RewriteToken(escapeChar: char, handler: EscapeHandler)
      requires TS.Valid(State(), input) && TS.HasToken(State())
      requires Paired(TS.Token(State()), escapeChar)
      modifies this`bufferLength, this`stopPosition, buffer
      ensures State() == TS.HandleEscaped(old(State()), input, escapeChar, handler)
    {
      ghost var s0 := State();
      ghost var T := buffer[..stopPosition];
      assert T[0..] == T;
      RewriteFromSlice(T, 0, escapeChar, handler);
      ghost var R := Rewrite(TS.Token(s0), escapeChar, handler);
      assert R == RewriteFrom(T, 0, escapeChar, handler);
      var destination, skippedChars := RewriteInPlace(escapeChar, handler);
      assert State() == s0.(buffer := R + s0.buffer[destination..]);
      CloseGap(destination);
    }

    /** The end of handleEscapedChars: the terminator at the stop position is
        copied to `destination`, right after the rewritten token, and the
        rest of the buffer, its terminator included, is moved after it. */
    method CloseGap(destination: nat)
      requires destination <= stopPosition <= bufferLength < buffer.Length
      modifies this`bufferLength, this`stopPosition, buffer
      ensures State() == TS.Close(old(State()), destination)
    {
      ghost var b0 := buffer[..];
      var skippedChars := stopPosition - destination;
      buffer[destination] := buffer[stopPosition];
      assert buffer[..] == b0[destination := b0[stopPosition]];
      MoveLeft(buffer, destination + 1, stopPosition + 1, bufferLength - stopPosition);
      stopPosition := stopPosition - skippedChars;
      bufferLength := bufferLength - skippedChars;
    }

    /** storeToken(index): copies current() into the slot. */
    method StoreToken(index: nat)
      requires Valid()
      modifies this`tokens
      ensures Valid()
      ensures tokens == if index < maxTokens then old(tokens)[index := Current()] else old(tokens)
    {
      if index < maxTokens {
        CStrSpec(buffer[..]);
        CStrBound(buffer[..], bufferLength);
        tokens := tokens[index := Current()];
      }
    }
  }
}
