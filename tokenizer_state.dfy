/** The tokenizer's changing fields as a value, each of its operations as a
    function from the state before to the state after, and what each of
    them keeps: the buffer holds the input text it has read, cut by at most
    one scan, and the text not consumed yet moves only as each operation
    promises. */
module TokenizerStates {
  import opened CStrings
  import opened Escapes
  import opened TokenizerSpec
  import opened TokenizerBuffer

  /** The fields of a tokenizer that its operations update: the buffer of
      MAX_TOKEN_LENGTH + 1 characters, its length, the stop position and
      the character saved there, and how many input characters have been
      read. */
  datatype State = State(buffer: seq<char>, bufferLength: nat, stopPosition: nat,
                         stopChar: char, inputCharsRead: nat)

  /** MAX_TOKEN_LENGTH: the buffer has one more place, for the terminator. */
  function Max(s: State): int {
    |s.buffer| - 1
  }

  /** What holds of every state apart from the buffer's contents. */
  predicate Framed(s: State, input: seq<char>) {
    && |s.buffer| > 1 && NoNul(input)
    && s.bufferLength < |s.buffer| && s.bufferLength <= s.inputCharsRead <= |input|
  }

  /** The input text the buffer holds: the `bufferLength` characters before
      `inputCharsRead`. */
  function Buffered(s: State, input: seq<char>): (seg: seq<char>)
    requires Framed(s, input)
    ensures |seg| == s.bufferLength && NoNul(seg)
  {
    input[s.inputCharsRead - s.bufferLength..s.inputCharsRead]
  }

  /** The tokenizer's invariant: the buffer holds the buffered text and its
      terminator, cut by at most one scan at the stop position, the
      character there being saved in `stopChar`. */
  predicate Valid(s: State, input: seq<char>) {
    Framed(s, input) && Cut(s.buffer, s.stopPosition, s.stopChar, Buffered(s, input))
  }

  /** The text not consumed yet: the unscanned part of the buffer followed
      by what the input still holds. */
  function Pending(s: State, input: seq<char>): (p: seq<char>)
    requires Valid(s, input)
    ensures |p| == |input| - Consumed(s)
  {
    Suffix(input, Consumed(s))
  }

  /** How much of the input has been consumed: the input offset of the
      first unscanned character. */
  function Consumed(s: State): int {
    s.inputCharsRead - s.bufferLength + s.stopPosition
  }

  /** The pending text is the input from the first unscanned character. */
  lemma {:induction false} PendingIs(s: State, input: seq<char>)
    requires Valid(s, input)
    ensures Pending(s, input) == input[s.inputCharsRead - s.bufferLength + s.stopPosition..]
  {
    SuffixIs(input, s.inputCharsRead - s.bufferLength + s.stopPosition);
  }

  /** positionInInput(): the input offset of the front of the buffer. */
  function PositionInInput(s: State, input: seq<char>): (n: int)
    requires Valid(s, input)
    ensures 0 <= n && n + s.stopPosition + |Pending(s, input)| == |input|
  {
    s.inputCharsRead - s.bufferLength
  }

  /** A scan has cut the buffer and its token has not been discarded. */
  predicate HasToken(s: State)
    requires s.stopPosition < |s.buffer|
  {
    s.bufferLength > 0 && s.buffer[s.stopPosition] == '\0'
  }

  /** The span the latest scan covered. */
  function Token(s: State): seq<char>
    requires s.stopPosition <= |s.buffer|
  {
    s.buffer[..s.stopPosition]
  }

  /** current(): the C string at the front of the buffer. */
  function Current(s: State): seq<char> {
    CStr(s.buffer)
  }

  /** The buffer is only empty when the input is exhausted. */
  predicate Primed(s: State, input: seq<char>) {
    s.bufferLength > 0 || s.inputCharsRead == |input|
  }

  /** The buffer has just been refilled: no token, and it holds as much of
      the pending text as fits. */
  predicate Refilled(s: State, input: seq<char>) {
    && Valid(s, input) && !HasToken(s) && Primed(s, input)
    && s.buffer[..s.bufferLength] == Window(Pending(s, input), Max(s))
  }

  /** A buffer the scan loops can walk: a C string of `bufferLength`
      characters, not cut. */
  predicate Scannable(s: State) {
    && s.bufferLength < |s.buffer| && s.buffer[s.bufferLength] == '\0'
    && NoNul(s.buffer[..s.bufferLength]) && s.stopPosition == 0
  }

  // ---------------------------------------------------------------------
  // The operations, state to state.

  /** shiftBufferToStopPosition(): with a token, the text from the stop
      position on, terminator included, moves to the front and the saved
      character goes back at index 0. */
  function Shift(s: State): (r: State)
    requires s.stopPosition <= s.bufferLength < |s.buffer|
    ensures |r.buffer| == |s.buffer| && r.inputCharsRead == s.inputCharsRead
    ensures r.stopPosition <= r.bufferLength <= s.bufferLength
  {
    if s.bufferLength > 0 && s.buffer[s.stopPosition] == '\0' then
      var size := s.bufferLength - s.stopPosition + 1;
      State(MovedLeft(s.buffer, 0, s.stopPosition, size)[0 := s.stopChar], size - 1, 0, '\0',
            s.inputCharsRead)
    else s
  }

  /** The characters readString delivers into the room left in the buffer. */
  function ReadCount(s: State, input: seq<char>): (count: nat)
    requires s.bufferLength <= Max(s) && s.inputCharsRead <= |input|
    ensures count <= Max(s) - s.bufferLength && count <= |input| - s.inputCharsRead
  {
    Min(Max(s) - s.bufferLength, |input| - s.inputCharsRead)
  }

  /** fillBuffer(): when there is room and the input has more, reads as
      much as fits after the buffered text and ends it with a NUL. */
  function Fill(s: State, input: seq<char>): (r: State)
    requires s.bufferLength < |s.buffer| && s.inputCharsRead <= |input|
    ensures |r.buffer| == |s.buffer| && r.stopPosition == s.stopPosition
    ensures s.bufferLength <= r.bufferLength < |r.buffer| && r.inputCharsRead <= |input|
    ensures r.inputCharsRead - s.inputCharsRead == r.bufferLength - s.bufferLength
  {
    if s.bufferLength < Max(s) && s.inputCharsRead < |input| then
      var count := ReadCount(s, input);
      var w := input[s.inputCharsRead..s.inputCharsRead + count];
      s.(buffer := Written(s.buffer, s.bufferLength, w)[s.bufferLength + count := '\0'],
         bufferLength := s.bufferLength + count, inputCharsRead := s.inputCharsRead + count)
    else s
  }

  /** What every reading operation starts with: shift, then fill. */
  function Refill(s: State, input: seq<char>): (r: State)
    requires s.stopPosition <= s.bufferLength < |s.buffer| && s.inputCharsRead <= |input|
    ensures |r.buffer| == |s.buffer| && r.bufferLength < |r.buffer| && r.inputCharsRead <= |input|
    ensures r.stopPosition <= r.bufferLength
  {
    Fill(Shift(s), input)
  }

  /** Ends a token at `k`: the character there is saved in `stopChar` and
      replaced by NUL. */
  function CutAt(s: State, k: nat): (r: State)
    requires k < |s.buffer|
    ensures r.stopPosition == k && |r.buffer| == |s.buffer|
  {
    s.(buffer := s.buffer[k := '\0'], stopPosition := k, stopChar := s.buffer[k])
  }

  /** The scan of nextUntil (`until`) or nextWhile over a refilled buffer:
      cut at the first unescaped stop. */
  function Scan(s: State, chars: seq<char>, esc: char, until: bool): (r: State)
    requires s.bufferLength < |s.buffer|
    ensures r.stopPosition <= s.bufferLength && |r.buffer| == |s.buffer|
  {
    CutAt(s, ScanLen(s.buffer[..s.bufferLength], chars, esc, until, 0))
  }

  /** nextUntil / nextWhile on a tokenizer that has not been aborted. */
  function Next(s: State, input: seq<char>, chars: seq<char>, esc: char, until: bool): State
    requires s.stopPosition <= s.bufferLength < |s.buffer| && s.inputCharsRead <= |input|
  {
    Scan(Refill(s, input), chars, esc, until)
  }

  /** pop() on a tokenizer that has not been aborted: without a token, the
      first character is cut off as one; then the buffer is refilled. */
  function Pop(s: State, input: seq<char>): State
    requires Valid(s, input)
  {
    var t := if s.stopPosition == 0 && s.buffer[0] != '\0' then CutAt(s, 1) else s;
    Refill(t, input)
  }

  /** What peek(chars) returns once the buffer has been refilled. */
  function PeekChar(r: State, chars: seq<char>): char
    requires |r.buffer| > 0 && NoNul(chars)
  {
    if Strchr(chars, r.buffer[0]) then r.buffer[0] else '\0'
  }

  /** One round of skip()'s do-while: refill, then put the stop position
      after the run of `chars` at the front. */
  function SkipRefill(s: State, input: seq<char>, chars: seq<char>): (t: State)
    requires s.stopPosition <= s.bufferLength < |s.buffer| && s.inputCharsRead <= |input|
    ensures |t.buffer| == |s.buffer| && t.inputCharsRead <= |input|
  {
    var r := Refill(s, input);
    r.(stopPosition := Strspn(r.buffer, 0, chars))
  }

  /** The state between two rounds of skip(): a refilled buffer whose stop
      position is the run at its front. */
  predicate SkipRound(t: State, input: seq<char>, chars: seq<char>) {
    && NoNul(chars) && Refilled(t.(stopPosition := 0), input)
    && t.stopPosition == Strspn(t.buffer, 0, chars) && t.stopPosition <= t.bufferLength
  }

  /** skip() from the end of a round: another round while the run covers
      the whole buffer and the input has more; then a cut after the run,
      and the run discarded. */
  function SkipAfter(t: State, input: seq<char>, chars: seq<char>): State
    requires SkipRound(t, input, chars)
    decreases |input| - t.inputCharsRead
  {
    if t.buffer[t.stopPosition] == '\0' && t.inputCharsRead < |input| then
      SkipRoundAgain(t, input, chars);
      SkipAfter(SkipRefill(t, input, chars), input, chars)
    else SkipEnd(t, chars)
  }

  /** The end of skip(): when a run was found, the buffer is cut after it
      and the run discarded. */
  function SkipEnd(t: State, chars: seq<char>): State
    requires NoNul(chars) && t.stopPosition <= t.bufferLength < |t.buffer|
  {
    if t.stopPosition > 0 && Strchr(chars, t.buffer[t.stopPosition - 1]) then
      Shift(CutAt(t, t.stopPosition))
    else t
  }

  /** skip(chars) on a tokenizer that has not been aborted. */
  function Skip(s: State, input: seq<char>, chars: seq<char>): State
    requires Valid(s, input) && NoNul(chars)
  {
    SkipRoundFirst(s, input, chars);
    SkipAfter(SkipRefill(s, input, chars), input, chars)
  }

  /** handleEscapedChars(escapeChar, handler): the token is rewritten in
      place from the front, and the gap the removed characters leave is
      closed. */
  function HandleEscaped(s: State, input: seq<char>, esc: char, h: EscapeHandler): (r: State)
    requires Valid(s, input) && (HasToken(s) ==> Paired(Token(s), esc))
  {
    if HasToken(s) then
      var R := Rewrite(Token(s), esc, h);
      var d := |R|;
      Close(s.(buffer := R + s.buffer[d..]), d)
    else s
  }

  /** The end of handleEscapedChars: the gap between the rewritten token,
      `d` characters long, and the stop position is closed. */
  function Close(s: State, d: nat): (r: State)
    requires d <= s.stopPosition <= s.bufferLength < |s.buffer|
  {
    s.(buffer := CloseGap(s.buffer, d, s.stopPosition, s.bufferLength - s.stopPosition),
       stopPosition := d, bufferLength := s.bufferLength - (s.stopPosition - d))
  }

  // ---------------------------------------------------------------------
  // Facts the operations need to be well defined.

  /** The run of `chars` at the front of a buffer without a token lies
      within the buffered text, and reaches the terminator only when it
      covers all of it. */
  lemma {:induction false} RunBound(r: State, input: seq<char>, chars: seq<char>)
    requires Valid(r, input) && !HasToken(r)
    ensures var n := Strspn(r.buffer, 0, chars);
            n <= r.bufferLength && (r.buffer[n] == '\0' ==> n == r.bufferLength)
  {
    FreshState(r, input);
    StrspnSpec(r.buffer, 0, chars);
    assert forall i :: 0 <= i < r.bufferLength ==> r.buffer[i] == r.buffer[..r.bufferLength][i];
  }

  /** The first round of skip() ends in a round state. */
  lemma {:induction false} SkipRoundFirst(s: State, input: seq<char>, chars: seq<char>)
    requires Valid(s, input) && NoNul(chars)
    ensures SkipRound(SkipRefill(s, input, chars), input, chars)
  {
    RefillKeeps(s, input);
    FreshState(Refill(s, input), input);
    RunBound(Refill(s, input), input, chars);
  }

  /** Another round of skip() reads more of the input and ends in a round
      state. */
  lemma {:induction false} SkipRoundAgain(t: State, input: seq<char>, chars: seq<char>)
    requires SkipRound(t, input, chars)
    requires t.buffer[t.stopPosition] == '\0' && t.inputCharsRead < |input|
    ensures SkipRound(SkipRefill(t, input, chars), input, chars)
    ensures SkipRefill(t, input, chars).inputCharsRead > t.inputCharsRead
  {
    SkipAgainPending(t, input, chars);
  }

  /** Another round of skip() starts with the text the last round left
      pending. */
  lemma {:induction false} SkipAgainPending(t: State, input: seq<char>, chars: seq<char>)
    requires SkipRound(t, input, chars)
    requires t.buffer[t.stopPosition] == '\0' && t.inputCharsRead < |input|
    ensures Valid(t, input) && SkipRound(SkipRefill(t, input, chars), input, chars)
    ensures SkipRefill(t, input, chars).inputCharsRead > t.inputCharsRead
    ensures Pending(SkipRefill(t, input, chars).(stopPosition := 0), input) == Pending(t, input)
  {
    var r := t.(stopPosition := 0);
    RunBound(r, input, chars);
    RunCutsAtEnd(r, input);
    RefillKeeps(t, input);
    var u := Refill(t, input);
    FreshState(u, input);
    RunBound(u, input, chars);
    assert Shift(t).bufferLength == 0;
  }

  // ---------------------------------------------------------------------
  // What each operation keeps.

  /** Without a token the stop position is 0, nothing is saved, the buffer
      holds the buffered text uncut and current() is all of it. */
  lemma {:induction false} FreshState(s: State, input: seq<char>)
    requires Valid(s, input) && !HasToken(s)
    ensures s.stopPosition == 0 && s.stopChar == '\0' && Uncut(s.buffer, Buffered(s, input))
    ensures Scannable(s) && s.buffer[..s.bufferLength] == Buffered(s, input)
    ensures Current(s) == Buffered(s, input)
    ensures (s.buffer[0] == '\0') == (s.bufferLength == 0)
  {
    CutWithoutToken(s.buffer, s.stopPosition, s.stopChar, Buffered(s, input));
    UncutIsCut(s.buffer, Buffered(s, input));
  }

  /** An uncut buffer whose stop position is 0 and whose saved character is
      NUL is a valid state without a token. */
  lemma {:induction false} FilledState(s: State, input: seq<char>)
    requires Framed(s, input) && Uncut(s.buffer, Buffered(s, input))
    requires s.stopPosition == 0 && s.stopChar == '\0'
    ensures Valid(s, input) && !HasToken(s)
    ensures s.buffer[..s.bufferLength] == Buffered(s, input)
  {
    UncutIsCut(s.buffer, Buffered(s, input));
  }

  /** With a token, current() is the token, a C string. */
  lemma {:induction false} TokenState(s: State, input: seq<char>)
    requires Valid(s, input) && HasToken(s)
    ensures Current(s) == Token(s) && NoNul(Token(s))
  {
    CutToken(s.buffer, s.stopPosition, s.stopChar, Buffered(s, input));
  }

  /** The run of a valid state's uncut buffer that reaches the terminator
      covers the whole buffered text, and the state cut there is valid. */
  lemma {:induction false} RunCutsAtEnd(r: State, input: seq<char>)
    requires Valid(r, input) && !HasToken(r)
    ensures Valid(r.(stopPosition := r.bufferLength), input)
  {
    FreshState(r, input);
  }

  /** Shifting discards the token and nothing else: the result has no
      token, and the pending text is the same. */
  lemma {:induction false} ShiftKeeps(s: State, input: seq<char>)
    requires Valid(s, input)
    ensures var r := Shift(s);
            && Valid(r, input) && !HasToken(r) && Pending(r, input) == Pending(s, input)
            && r.inputCharsRead == s.inputCharsRead
            && (HasToken(s) ==> r.bufferLength == s.bufferLength - s.stopPosition)
            && (!HasToken(s) ==> r == s)
  {
    if HasToken(s) {
      var seg := Buffered(s, input);
      ShiftUncuts(s.buffer, s.stopPosition, s.stopChar, seg);
      var r := Shift(s);
      assert Buffered(r, input) == seg[s.stopPosition..];
      FilledState(r, input);
    } else {
      FreshState(s, input);
    }
  }

  /** Filling a buffer without a token keeps the pending text and leaves the
      buffer holding as much of it as fits. */
  lemma {:induction false} FillKeeps(s: State, input: seq<char>)
    requires Valid(s, input) && !HasToken(s)
    ensures var r := Fill(s, input);
            && Refilled(r, input) && Pending(r, input) == Pending(s, input)
            && PositionInInput(r, input) == PositionInInput(s, input)
  {
    FreshState(s, input);
    var r := Fill(s, input);
    if s.bufferLength < Max(s) && s.inputCharsRead < |input| {
      FillAppends(s, input);
    }
    FilledState(r, input);
    WindowFull(r, input);
  }

  /** A read appends the characters read to the buffered text, uncut. */
  lemma {:induction false} FillAppends(s: State, input: seq<char>)
    requires Framed(s, input) && Uncut(s.buffer, Buffered(s, input))
    requires s.bufferLength < Max(s) && s.inputCharsRead < |input|
    ensures Uncut(Fill(s, input).buffer, Buffered(Fill(s, input), input))
  {
    var seg := Buffered(s, input);
    var w := input[s.inputCharsRead..s.inputCharsRead + ReadCount(s, input)];
    FillUncut(s.buffer, seg, w);
    assert Buffered(Fill(s, input), input) == seg + w;
  }

  /** A buffer without a token that is full, or that holds the rest of the
      input, holds the window of the pending text. */
  lemma {:induction false} WindowFull(r: State, input: seq<char>)
    requires Valid(r, input) && !HasToken(r)
    requires r.bufferLength == Max(r) || r.inputCharsRead == |input|
    ensures r.buffer[..r.bufferLength] == Window(Pending(r, input), Max(r))
  {
    FreshState(r, input);
    var p := Pending(r, input);
    PendingIs(r, input);
    assert Min(Max(r), |p|) == r.bufferLength;
    assert p[..r.bufferLength] == input[r.inputCharsRead - r.bufferLength..r.inputCharsRead];
  }

  /** Shift then fill: the reading operations' common start. */
  lemma {:induction false} RefillKeeps(s: State, input: seq<char>)
    requires Valid(s, input)
    ensures var r := Refill(s, input);
            && Refilled(r, input) && Pending(r, input) == Pending(s, input)
  {
    ShiftKeeps(s, input);
    FillKeeps(Shift(s), input);
  }

  /** Cutting a buffer without a token at `k` makes its first `k`
      characters the token and consumes them from the pending text. */
  lemma {:induction false} CutKeeps(r: State, input: seq<char>, k: nat)
    requires Valid(r, input) && !HasToken(r) && k <= r.bufferLength
    ensures var t := CutAt(r, k);
            && Valid(t, input) && Token(t) == r.buffer[..k] && Current(t) == r.buffer[..k]
            && Pending(t, input) == Suffix(Pending(r, input), k) && t.stopChar == r.buffer[k]
            && (r.bufferLength > 0 ==> HasToken(t))
  {
    FreshState(r, input);
    CutAtKeeps(r.buffer, Buffered(r, input), k);
    SuffixAdd(input, Consumed(r), k, Consumed(CutAt(r, k)));
    assert r.buffer[..k] == r.buffer[..r.bufferLength][..k];
  }

  /** The scan of a refilled buffer ends at the first unescaped stop of the
      window, cuts the token there, and consumes the token from the
      pending text; the character saved is the one the scan stopped at. */
  lemma {:induction false} ScanKeeps(r: State, input: seq<char>, chars: seq<char>, esc: char, until: bool)
    requires Refilled(r, input)
    ensures var w := Window(Pending(r, input), Max(r));
            var k := ScanLen(w, chars, esc, until, 0);
            var t := Scan(r, chars, esc, until);
            && Valid(t, input) && Token(t) == w[..k] && Current(t) == w[..k]
            && Pending(t, input) == Suffix(Pending(r, input), k)
            && t.stopChar == (if k < |w| then w[k] else '\0')
            && (|w| > 0 ==> HasToken(t))
  {
    var k := ScanLen(r.buffer[..r.bufferLength], chars, esc, until, 0);
    CutKeeps(r, input, k);
    FreshState(r, input);
    assert r.buffer[..k] == r.buffer[..r.bufferLength][..k];
    assert k < r.bufferLength ==> r.buffer[k] == r.buffer[..r.bufferLength][k];
  }

  /** nextUntil / nextWhile: the token is the scan of the window of the
      pending text, and it is consumed from it. */
  lemma {:induction false} NextKeeps(s: State, input: seq<char>, chars: seq<char>, esc: char, until: bool)
    requires Valid(s, input)
    ensures var w := Window(Pending(s, input), Max(s));
            var k := ScanLen(w, chars, esc, until, 0);
            var t := Next(s, input, chars, esc, until);
            && Valid(t, input) && Token(t) == w[..k] && Current(t) == w[..k]
            && Pending(t, input) == Suffix(Pending(s, input), k)
            && t.stopChar == (if k < |w| then w[k] else '\0')
            && (|w| > 0 ==> HasToken(t))
  {
    var r := Refill(s, input);
    RefillKeeps(s, input);
    assert Window(Pending(r, input), Max(r)) == Window(Pending(s, input), Max(s));
    ScanKeeps(r, input, chars, esc, until);
  }

  /** pop(): a token is only discarded; without one, the next character is
      consumed. Either way the buffer is refilled. */
  lemma {:induction false} PopKeeps(s: State, input: seq<char>)
    requires Valid(s, input)
    ensures var r := Pop(s, input);
            && Refilled(r, input)
            && Pending(r, input) == if HasToken(s) || s.bufferLength == 0 then Pending(s, input)
                                    else Suffix(Pending(s, input), 1)
  {
    if s.stopPosition == 0 && s.buffer[0] != '\0' {
      FreshState(s, input);
      CutKeeps(s, input, 1);
      RefillKeeps(CutAt(s, 1), input);
    } else {
      RefillKeeps(s, input);
    }
  }

  /** peek(chars): the next pending character when it is one of `chars`,
      NUL otherwise; nothing is consumed. */
  lemma {:induction false} PeekKeeps(s: State, input: seq<char>, chars: seq<char>)
    requires Valid(s, input) && NoNul(chars)
    ensures var r := Refill(s, input);
            var p := Pending(s, input);
            && Refilled(r, input) && Pending(r, input) == p
            && PeekChar(r, chars) == if p != [] && p[0] in chars then p[0] else '\0'
  {
    RefillKeeps(s, input);
    var r := Refill(s, input);
    FreshState(r, input);
    assert r.bufferLength > 0 ==> r.buffer[0] == r.buffer[..r.bufferLength][0];
  }

  /** A round's stop position is the run of `chars` at the front of the
      pending text as far as the buffer shows it; when the run stops inside
      the buffer, or the input has nothing more, it is the whole run. */
  lemma {:induction false} RunInWindow(t: State, input: seq<char>, chars: seq<char>)
    requires SkipRound(t, input, chars)
    ensures var p := Pending(t.(stopPosition := 0), input);
            var n := t.stopPosition;
            && n <= |p| && (forall i :: 0 <= i < n ==> p[i] in chars)
            && (t.buffer[n] != '\0' || t.inputCharsRead == |input| ==> SpanLen(p, chars) == n)
  {
    var r := t.(stopPosition := 0);
    FreshState(r, input);
    PendingIs(r, input);
    var p := input[PositionInInput(r, input)..];
    var n := t.stopPosition;
    RunBound(r, input, chars);
    StrspnSpec(t.buffer, 0, chars);
    assert forall i :: 0 <= i < n ==> p[i] == r.buffer[..r.bufferLength][i];
    if t.buffer[n] != '\0' || t.inputCharsRead == |input| {
      if n < |p| {
        assert t.buffer[n] != '\0';
        assert p[n] == r.buffer[..r.bufferLength][n];
      }
      SpanLenSpec(p, chars, n);
    }
  }

  /** The end of skip(): cutting after the run and discarding it consumes
      the run, and leaves a valid state with no token. */
  lemma {:induction false} SkipEndKeeps(t: State, input: seq<char>, chars: seq<char>)
    requires SkipRound(t, input, chars)
    requires t.buffer[t.stopPosition] != '\0' || t.inputCharsRead == |input|
    ensures var r := SkipEnd(t, chars);
            && Valid(r, input) && !HasToken(r) && Primed(r, input)
            && Consumed(r) == Consumed(t) == Consumed(t.(stopPosition := 0))
                                           + SpanLen(Pending(t.(stopPosition := 0), input), chars)
  {
    RunInWindow(t, input, chars);
    SkipEndCuts(t, input, chars);
  }

  /** The state the end of skip() leaves, in terms of the run's length. */
  lemma {:induction false} SkipEndCuts(t: State, input: seq<char>, chars: seq<char>)
    requires SkipRound(t, input, chars)
    requires t.buffer[t.stopPosition] != '\0' || t.inputCharsRead == |input|
    ensures var r := SkipEnd(t, chars);
            && Valid(r, input) && !HasToken(r) && Primed(r, input) && Consumed(r) == Consumed(t)
  {
    var r := t.(stopPosition := 0);
    var n := t.stopPosition;
    RunBound(r, input, chars);
    if n > 0 && Strchr(chars, t.buffer[n - 1]) {
      CutShiftKeeps(r, input, n);
      assert CutAt(t, n) == CutAt(r, n);
    } else {
      StrspnSpec(t.buffer, 0, chars);
      assert n == 0 && t == r;
    }
  }

  /** Cutting a token of `k` characters off a buffer with no token and
      discarding it consumes the `k` characters. */
  lemma {:induction false} CutShiftKeeps(r: State, input: seq<char>, k: nat)
    requires Valid(r, input) && !HasToken(r) && 0 < k <= r.bufferLength
    ensures var u := Shift(CutAt(r, k));
            && Valid(u, input) && !HasToken(u) && Consumed(u) == Consumed(r) + k
            && u.bufferLength == r.bufferLength - k && u.inputCharsRead == r.inputCharsRead
  {
    CutKeeps(r, input, k);
    ShiftKeeps(CutAt(r, k), input);
  }

  /** The rounds of skip() from a round state consume the whole run of
      `chars` at the front of the pending text. */
  lemma {:induction false} SkipAfterKeeps(t: State, input: seq<char>, chars: seq<char>)
    requires SkipRound(t, input, chars)
    ensures var r := SkipAfter(t, input, chars);
            && Valid(r, input) && !HasToken(r) && Primed(r, input)
            && Consumed(r) == Consumed(t.(stopPosition := 0)) + SpanLen(Pending(t.(stopPosition := 0), input), chars)
    decreases |input| - t.inputCharsRead
  {
    if t.buffer[t.stopPosition] == '\0' && t.inputCharsRead < |input| {
      var p := Pending(t.(stopPosition := 0), input);
      var u := SkipRefill(t, input, chars);
      RunInWindow(t, input, chars);
      SpanLenAfterRun(p, chars, t.stopPosition);
      SkipAgainKeeps(t, input, chars);
      SuffixAdd(input, Consumed(t.(stopPosition := 0)), t.stopPosition, Consumed(u.(stopPosition := 0)));
      SkipAfterKeeps(u, input, chars);
    } else {
      SkipEndKeeps(t, input, chars);
    }
  }

  /** Another round of skip() starts where the last one stopped, which is
      the text after the run it found. */
  lemma {:induction false} SkipAgainKeeps(t: State, input: seq<char>, chars: seq<char>)
    requires SkipRound(t, input, chars)
    requires t.buffer[t.stopPosition] == '\0' && t.inputCharsRead < |input|
    ensures var u := SkipRefill(t, input, chars);
            && SkipRound(u, input, chars) && Consumed(u.(stopPosition := 0)) == Consumed(t)
  {
    SkipAgainPending(t, input, chars);
  }

  /** skip(chars): the longest run of `chars` at the front of the pending
      text is consumed, however many buffers it spans. */
  lemma {:induction false} SkipKeeps(s: State, input: seq<char>, chars: seq<char>)
    requires Valid(s, input) && NoNul(chars)
    ensures var p := Pending(s, input);
            var r := Skip(s, input, chars);
            && Valid(r, input) && !HasToken(r) && Primed(r, input)
            && Consumed(r) == Consumed(s) + SpanLen(p, chars)
  {
    var p := Pending(s, input);
    var u := SkipRefill(s, input, chars);
    SkipRoundFirst(s, input, chars);
    RefillKeeps(s, input);
    FreshState(Refill(s, input), input);
    assert u.(stopPosition := 0) == Refill(s, input);
    SkipAfterKeeps(u, input, chars);

  }

  /** handleEscapedChars: the token becomes its rewrite, a C string; the
      pending text stays as it was, the buffer having shrunk by as many
      characters as the token did. */
  lemma {:induction false} HandleEscapedKeeps(s: State, input: seq<char>, esc: char, h: EscapeHandler)
    requires Valid(s, input) && HasToken(s) && Paired(Token(s), esc)
    ensures var r := HandleEscaped(s, input, esc, h);
            && Valid(r, input) && HasToken(r) && Token(r) == Rewrite(Token(s), esc, h)
            && Current(r) == Token(r) && Consumed(r) == Consumed(s)
  {
    var R := Rewrite(Token(s), esc, h);
    var seg := Buffered(s, input);
    HandleEscapedCuts(s, input, esc, h);
    var r := HandleEscaped(s, input, esc, h);
    assert Buffered(r, input) == seg[s.stopPosition - |R|..];
    TokenState(r, input);
  }

  /** The buffer handleEscapedChars leaves: cut after the rewritten token,
      over the buffered text without the characters the rewrite removed. */
  lemma {:induction false} HandleEscapedCuts(s: State, input: seq<char>, esc: char, h: EscapeHandler)
    requires Valid(s, input) && HasToken(s) && Paired(Token(s), esc)
    ensures var r := HandleEscaped(s, input, esc, h);
            var R := Rewrite(Token(s), esc, h);
            && Cut(r.buffer, |R|, s.stopChar, Buffered(s, input)[s.stopPosition - |R|..])
            && r.buffer[..|R|] == R
  {
    RewriteCloses(s.buffer, s.stopPosition, s.stopChar, Buffered(s, input), esc, h);
  }

  // ---------------------------------------------------------------------
  // The validity each operation keeps, on its own, for the methods that
  // implement the operations.

  /** After a refill the buffer can be scanned, and the state is valid. */
  lemma {:induction false} RefillReady(s: State, input: seq<char>)
    requires Valid(s, input)
    ensures Valid(Refill(s, input), input) && Scannable(Refill(s, input))
  {
    RefillKeeps(s, input);
    FreshState(Refill(s, input), input);
  }

  lemma {:induction false} NextValid(s: State, input: seq<char>, chars: seq<char>, esc: char, until: bool)
    requires Valid(s, input)
    ensures Valid(Next(s, input, chars, esc, until), input)
  {
    NextKeeps(s, input, chars, esc, until);
  }

  /** pop() only cuts off a first character that is there. */
  lemma {:induction false} PopValid(s: State, input: seq<char>)
    requires Valid(s, input)
    ensures s.stopPosition == 0 && s.buffer[0] != '\0' ==> 1 <= s.bufferLength
    ensures Valid(Pop(s, input), input)
  {
    PopKeeps(s, input);
  }

  lemma {:induction false} SkipValid(s: State, input: seq<char>, chars: seq<char>)
    requires Valid(s, input) && NoNul(chars)
    ensures Valid(Skip(s, input, chars), input)
  {
    SkipKeeps(s, input, chars);
  }

  lemma {:induction false} HandleEscapedValid(s: State, input: seq<char>, esc: char, h: EscapeHandler)
    requires Valid(s, input) && (HasToken(s) ==> Paired(Token(s), esc))
    ensures Valid(HandleEscaped(s, input, esc, h), input)
  {
    if HasToken(s) {
      HandleEscapedKeeps(s, input, esc, h);
    }
  }
}
