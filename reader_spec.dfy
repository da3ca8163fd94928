/** What the reader's parse operations do to the text not consumed yet
    (the "pending" text), stated as functions of that text and of the
    tokenizer's maximum token length `max`; the reader's methods are proved
    to follow them. Reading a whole value with these functions gives the
    JSON document the caller would see by iterating it. */
module ReaderSpec {
  import opened CStrings
  import opened Escapes
  import opened TokenizerSpec
  import opened Documents
  import Toolbox

  /** The characters Value::parse dispatches on. */
  const ValueStarts: seq<char> := "ntf\"-0123456789[{"
  /** The characters that end a literal. */
  const LiteralEnds: seq<char> := " \r\n\t,]}"
  /** The characters of a number. */
  const NumberChars: seq<char> := "-0123456789."

  datatype ValueType = Invalid | Null | Boolean | Integer | Decimal | String | List | Object

  /** What a successful Value::parse has found: a scalar with its payload,
      or the start of a container whose opening bracket is still pending. */
  datatype Head =
    | NullHead
    | BooleanHead(b: bool)
    | NumberHead(d: Toolbox.Decimal)
    | StringHead(s: seq<char>)
    | ListHead
    | ObjectHead

  /** The type tag a parse with this head gives the value: a number is an
      Integer when it has no fractional part. */
  function TypeOf(h: Head): (t: ValueType)
    ensures t != Invalid
  {
    match h
    case NullHead => Null
    case BooleanHead(_) => Boolean
    case NumberHead(d) => if Toolbox.IsInteger(d) then Integer else Decimal
    case StringHead(_) => String
    case ListHead => List
    case ObjectHead => Object
  }

  /** The outcome of a parse step: failure (the tokenizer is aborted), or
      what was found and the text still pending. */
  datatype Outcome<T> = Fail | Ok(value: T, rest: seq<char>)

  /** One step of a container iterator: the next element and the pending
      text after it, the end of the container with the pending text after
      the closer, or a failure that ends the iteration. */
  datatype Step<T> = Next(item: T, rest: seq<char>) | Done(rest: seq<char>) | Stopped

  function StepSize<T>(st: Step<T>): nat {
    match st
    case Next(_, rest) => |rest|
    case Done(rest) => |rest|
    case Stopped => 0
  }

  /** skip(): the pending text after its run of whitespace. */
  function SkipWs(p: seq<char>): (r: seq<char>)
    ensures |r| <= |p|
  {
    Suffix(p, SpanLen(p, Whitespace))
  }

  /** peek(chars): the next pending character if it is one of `chars`, NUL
      otherwise. */
  function PeekIn(p: seq<char>, chars: seq<char>): char {
    if p != [] && p[0] in chars then p[0] else '\0'
  }

  /** The literal that starts with `c`. */
  function Literal(c: char): seq<char> {
    if c == 'n' then "null" else if c == 't' then "true" else "false"
  }

  function LiteralHead(c: char): Head {
    if c == 'n' then NullHead else BooleanHead(c == 't')
  }

  /** The token nextUntil / nextWhile cuts from the front of `q`: the
      window's characters up to the first unescaped stop, and the pending
      text after them. */
  function Token(q: seq<char>, max: nat, chars: seq<char>, esc: char, until: bool): (r: (seq<char>, seq<char>))
    ensures |r.0| <= max && r.0 + r.1 == q
  {
    var w := Window(q, max);
    var k := ScanLen(w, chars, esc, until, 0);
    SuffixIs(q, k);
    assert q == q[..k] + q[k..];
    (w[..k], Suffix(q, k))
  }

  /** A string after its opening quote: the text up to the first quote not
      escaped by a backslash, with its JSON escapes rewritten, and the
      pending text after the closing quote. The closing quote must lie
      within the window, or the string fails. */
  function QuotedText(q: seq<char>, max: nat): (r: Toolbox.Maybe<(seq<char>, seq<char>)>)
    ensures r.Some? ==> |r.value.1| < |q|
  {
    var w := Window(q, max);
    var k := ScanLen(w, "\"", '\\', true, 0);
    if k < |w| then
      ScanLenSpec(w, "\"", '\\', true, 0, k);
      StopPaired(w, k);
      Toolbox.Some((Rewrite(w[..k], '\\', JsonHandler), Suffix(Suffix(q, k), 1)))
    else Toolbox.None
  }

  /** A literal: the token up to a delimiter must be the literal its first
      character announces. */
  function LiteralAt(q: seq<char>, max: nat, c: char): (r: Toolbox.Maybe<(Head, seq<char>)>)
    ensures r.Some? ==> r.value.0 == LiteralHead(c) && |r.value.1| < |q|
  {
    var (token, rest) := Token(q, max, LiteralEnds, '\0', true);
    if token == Literal(c) then Toolbox.Some((LiteralHead(c), rest)) else Toolbox.None
  }

  /** A string: the opening quote `q[0]` is dropped and the quoted text read. */
  function StringAt(q: seq<char>, max: nat): (r: Toolbox.Maybe<(Head, seq<char>)>)
    requires q != []
    ensures r.Some? ==> r.value.0.StringHead? && |r.value.1| < |q|
  {
    match QuotedText(Suffix(q, 1), max)
    case None => Toolbox.None
    case Some((s, rest)) => Toolbox.Some((StringHead(s), rest))
  }

  /** A number: the longest run of number characters in the window, read
      as a decimal; a run the decimal syntax rejects fails. */
  function NumberAt(q: seq<char>, max: nat): (r: Toolbox.Maybe<(Head, seq<char>)>)
    ensures r.Some? ==> r.value.0.NumberHead? && Toolbox.WellFormed(r.value.0.d) && |r.value.1| < |q|
  {
    var (token, rest) := Token(q, max, NumberChars, '\0', false);
    match Toolbox.FromString(token)
    case None => Toolbox.None
    case Some(d) =>
      assert token != [];
      Toolbox.Some((NumberHead(d), rest))
  }

  /** Value::parse after the whitespace: the head its first character
      announces and the text after it; a bracket is left pending. */
  function HeadAt(q: seq<char>, max: nat): (r: Toolbox.Maybe<(Head, seq<char>)>)
    ensures r.Some? ==> |r.value.1| <= |q|
    ensures r.Some? && r.value.0 != ListHead && r.value.0 != ObjectHead ==> |r.value.1| < |q|
  {
    var c := PeekIn(q, ValueStarts);
    if c == 'n' || c == 't' || c == 'f' then LiteralAt(q, max, c)
    else if c == '"' then StringAt(q, max)
    else if c == '-' || IsDigit(c) then NumberAt(q, max)
    else if c == '[' then Toolbox.Some((ListHead, q))
    else if c == '{' then Toolbox.Some((ObjectHead, q))
    else Toolbox.None
  }

  /** Value::parse: after whitespace, a literal scanned to a delimiter and
      compared with `null`, `true` or `false`; a string; a number scanned
      over `-0123456789.` and read as a decimal; or the start of a list or
      an object, the bracket left pending. A success skips the whitespace
      after the value. */
  function ParseValue(p: seq<char>, max: nat): (r: Outcome<Head>)
    ensures r.Ok? ==> |r.rest| <= |p|
    ensures r.Ok? && r.value != ListHead && r.value != ObjectHead ==> |r.rest| < |p|
  {
    ValueAt(SkipWs(p), max)
  }

  /** Value::parse after the whitespace before the value. */
  function ValueAt(q: seq<char>, max: nat): (r: Outcome<Head>)
    ensures r.Ok? ==> |r.rest| <= |q|
    ensures r.Ok? && r.value != ListHead && r.value != ObjectHead ==> |r.rest| < |q|
  {
    AfterHead(HeadAt(q, max))
  }

  /** What follows the switch of Value::parse: a failure, or the value's
      head with the whitespace after it skipped. */
  function AfterHead(hd: Toolbox.Maybe<(Head, seq<char>)>): (r: Outcome<Head>)
    ensures r.Ok? ==> hd.Some? && r.value == hd.value.0 && |r.rest| <= |hd.value.1|
  {
    match hd
    case None => Fail
    case Some((h, rest)) => Ok(h, SkipWs(rest))
  }

  predicate IsDigit(c: char) {
    '0' <= c <= '9'
  }

  /** List::parse / Object::parse: after whitespace, the opening bracket is
      required and consumed. */
  function Open(p: seq<char>, bracket: char): (r: Toolbox.Maybe<seq<char>>)
    ensures r.Some? ==> |r.value| < |p|
  {
    var q := SkipWs(p);
    if PeekIn(q, [bracket]) == bracket && bracket != '\0' then Toolbox.Some(Suffix(q, 1)) else Toolbox.None
  }

  /** Property::parse: after whitespace, a quoted name, then the colon and
      the value. */
  function PropertyAt(p: seq<char>, max: nat): (r: Outcome<(seq<char>, Head)>)
    ensures r.Ok? ==> |r.rest| < |p|
  {
    var q := SkipWs(p);
    if PeekIn(q, "\"") != '"' then Fail
    else NamedAt(q, max)
  }

  /** Property::parse from the opening quote of the name. */
  function NamedAt(q: seq<char>, max: nat): (r: Outcome<(seq<char>, Head)>)
    requires q != []
    ensures r.Ok? ==> |r.rest| < |q|
  {
    match QuotedText(Suffix(q, 1), max)
    case None => Fail
    case Some((name, after)) =>
      match AfterName(after, max)
      case Fail => Fail
      case Ok(h, rest) => Ok((name, h), rest)
  }

  /** Property::parse after the name: whitespace, a colon and a value. */
  function AfterName(p: seq<char>, max: nat): (r: Outcome<Head>)
    ensures r.Ok? ==> |r.rest| < |p|
  {
    var q := SkipWs(p);
    if PeekIn(q, ":") != ':' then Fail else ParseValue(Suffix(q, 1), max)
  }

  /** From a parse outcome to an iterator step. */
  function StepOf<T>(r: Outcome<T>): Step<T> {
    match r
    case Fail => Stopped
    case Ok(v, rest) => Next(v, rest)
  }

  /** List::Iterator's constructor, after the opening bracket: ends at once
      on `]` (consumed, then whitespace), and otherwise parses the first
      element. */
  function ListFirst(p: seq<char>, max: nat): (st: Step<Head>)
    ensures StepSize(st) <= |p|
  {
    var q := SkipWs(p);
    if PeekIn(q, "]") == ']' then Done(SkipWs(Suffix(q, 1))) else StepOf(ParseValue(q, max))
  }

  /** List::Iterator::operator++ after a valid element: `,` is consumed and
      the next element parsed; `]` is consumed and ends the iteration;
      anything else ends it with a failure. */
  function ListFollowing(p: seq<char>, max: nat): (st: Step<Head>)
    ensures StepSize(st) < |p| || st.Stopped?
  {
    var q := SkipWs(p);
    var c := PeekIn(q, ",]");
    if c == ',' then StepOf(ParseValue(Suffix(q, 1), max))
    else if c == ']' then Done(SkipWs(Suffix(q, 1)))
    else Stopped
  }

  /** Object::Iterator's constructor, after the opening brace. */
  function ObjectFirst(p: seq<char>, max: nat): (st: Step<(seq<char>, Head)>)
    ensures StepSize(st) < |p| || st.Stopped?
  {
    var q := SkipWs(p);
    if PeekIn(q, "}") == '}' then Done(SkipWs(Suffix(q, 1))) else StepOf(PropertyAt(q, max))
  }

  /** Object::Iterator::operator++ after a valid property. */
  function ObjectFollowing(p: seq<char>, max: nat): (st: Step<(seq<char>, Head)>)
    ensures StepSize(st) < |p| || st.Stopped?
  {
    var q := SkipWs(p);
    var c := PeekIn(q, ",}");
    if c == ',' then StepOf(PropertyAt(Suffix(q, 1), max))
    else if c == '}' then Done(SkipWs(Suffix(q, 1)))
    else Stopped
  }

  /** The value a parsed scalar head stands for. */
  function Scalar(h: Head): Json
    requires h != ListHead && h != ObjectHead
  {
    match h
    case NullHead => JNull
    case BooleanHead(b) => JBool(b)
    case NumberHead(d) => JNumber(d)
    case StringHead(s) => JString(s)
  }

  /** The document a caller sees by reading, from the value parsed as `h`
      with the pending text `p`: a scalar is complete; a container opens
      its bracket and yields its elements one iterator step at a time, each
      element read to its end (Value::skip drains it the same way) before
      the iterator moves on. */
  function ReadFrom(h: Head, p: seq<char>, max: nat): (r: Outcome<Json>)
    ensures r.Ok? ==> |r.rest| <= |p|
    decreases |p|, 0
  {
    match h
    case ListHead =>
      (match Open(p, '[')
       case None => Fail
       case Some(q) => ReadList(ListFirst(q, max), [], max))
    case ObjectHead =>
      (match Open(p, '{')
       case None => Fail
       case Some(q) => ReadObject(ObjectFirst(q, max), [], max))
    case _ => Ok(Scalar(h), p)
  }

  /** The rest of a list from an iterator step, its elements so far being
      `items`. */
  function ReadList(st: Step<Head>, items: seq<Json>, max: nat): (r: Outcome<Json>)
    ensures r.Ok? ==> |r.rest| <= StepSize(st)
    decreases StepSize(st), 1
  {
    match st
    case Stopped => Fail
    case Done(rest) => Ok(JList(items), rest)
    case Next(h, rest) =>
      match ReadFrom(h, rest, max)
      case Fail => Fail
      case Ok(v, after) =>
        var next := ListFollowing(after, max);
        if next.Stopped? then Fail else ReadList(next, items + [v], max)
  }

  /** The rest of an object from an iterator step. */
  function ReadObject(st: Step<(seq<char>, Head)>, props: seq<Property>, max: nat): (r: Outcome<Json>)
    ensures r.Ok? ==> |r.rest| <= StepSize(st)
    decreases StepSize(st), 1
  {
    match st
    case Stopped => Fail
    case Done(rest) => Ok(JObject(props), rest)
    case Next((name, h), rest) =>
      match ReadFrom(h, rest, max)
      case Fail => Fail
      case Ok(v, after) =>
        var next := ObjectFollowing(after, max);
        if next.Stopped? then Fail else ReadObject(next, props + [Property(name, v)], max)
  }

  /** The iterator step after `st`: its element read to its end, then the
      list's separator or end; a failed element stops the list. */
  function ListNext(st: Step<Head>, max: nat): (r: Step<Head>)
    requires st.Next?
    ensures StepSize(r) + (if r.Next? then 1 else 0) <= StepSize(st)
  {
    match ReadFrom(st.item, st.rest, max)
    case Fail => Stopped
    case Ok(_, after) => ListFollowing(after, max)
  }

  /** The object counterpart of ListNext. */
  function ObjectNext(st: Step<(seq<char>, Head)>, max: nat): (r: Step<(seq<char>, Head)>)
    requires st.Next?
    ensures StepSize(r) + (if r.Next? then 1 else 0) <= StepSize(st)
  {
    match ReadFrom(st.item.1, st.rest, max)
    case Fail => Stopped
    case Ok(_, after) => ObjectFollowing(after, max)
  }

  /** Reading a list on from a step reads it on from the next step, the
      element read being appended. */
  lemma {:induction false} ListNextReads(st: Step<Head>, items: seq<Json>, max: nat)
    requires st.Next?
    ensures var r := ReadFrom(st.item, st.rest, max);
            ReadList(st, items, max)
            == ReadList(ListNext(st, max), if r.Ok? then items + [r.value] else items, max)
  {
  }

  /** Reading an object on from a step reads it on from the next step, the
      property read being appended. */
  lemma {:induction false} ObjectNextReads(st: Step<(seq<char>, Head)>, props: seq<Property>, max: nat)
    requires st.Next?
    ensures var r := ReadFrom(st.item.1, st.rest, max);
            ReadObject(st, props, max)
            == ReadObject(ObjectNext(st, max), if r.Ok? then props + [Property(st.item.0, r.value)] else props, max)
  {
  }

  // ---------------------------------------------------------------------
  // Facts the definitions need.

  /** When the scan for the closing quote stops inside the window, it
      stops at a quote, and the escapes of the text before it pair up. */
  lemma {:induction false} QuotedStop(q: seq<char>, max: nat)
    ensures var w := Window(q, max);
            var k := ScanLen(w, "\"", '\\', true, 0);
            k < |w| ==> w[k] == '"' && Paired(w[..k], '\\')
  {
    var w := Window(q, max);
    var k := ScanLen(w, "\"", '\\', true, 0);
    if k < |w| {
      ScanLenSpec(w, "\"", '\\', true, 0, k);
      StopPaired(w, k);
    }
  }

  /** A scan stop is not escaped, so the escapes before it pair up. */
  lemma {:induction false} StopPaired(w: seq<char>, k: nat)
    requires k < |w| && StopsAt(w, k, "\"", '\\', true)
    ensures Paired(w[..k], '\\')
  {
    RunBeforeAgree(w, w[..k], k, '\\');
    PairedIffEvenRun(w[..k], '\\');
  }
}
