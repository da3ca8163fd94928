/** Reading back what the writer writes: the text `Documents.Render(v)`,
    which a fresh writer emits for the natural calls of `v`, parses with
    `ReaderSpec.ParseValue` and reads with `ReaderSpec.ReadFrom` to `v`
    itself, provided every scalar token of `v` fits the reader's window. */
module RoundTrip {
  import opened CStrings
  import opened Escapes
  import opened TokenizerSpec
  import opened Documents
  import opened ReaderSpec
  import Toolbox
  import WriterSpec

  /** Every scalar of `v` fits a reader window of `max` characters: a
      literal or a number has at most `max` characters, and a string or a
      property name has its escaped text and its closing quote within
      `max` characters. */
  predicate InWindow(v: Json, max: nat)
    decreases v
  {
    match v
    case JNull => |Render(v)| <= max
    case JBool(_) => |Render(v)| <= max
    case JNumber(d) => Toolbox.WellFormed(d) && |Render(v)| <= max
    case JString(s) => |Escape(s, '\\', Quote)| < max
    case JList(items) => forall i :: 0 <= i < |items| ==> InWindow(items[i], max)
    case JObject(props) =>
      forall i :: 0 <= i < |props| ==> |Escape(props[i].name, '\\', Quote)| < max && InWindow(props[i].value, max)
  }

  /** Text that may follow a value the writer wrote: nothing, or the
      separator or closer that comes next. */
  predicate Delimits(t: seq<char>) {
    t == [] || t[0] in ",]}"
  }

  /** The list elements `items`, each after a comma, followed by `tail`. */
  function ItemsText(items: seq<Json>, tail: seq<char>): seq<char>
    decreases |items|
  {
    if items == [] then tail else "," + (Render(items[0]) + ItemsText(items[1..], tail))
  }

  /** One property as written, quoted name, colon and value, followed by
      `tail`. */
  function PropertyText(p: Property, tail: seq<char>): seq<char> {
    "\"" + (Escape(p.name, '\\', Quote) + ("\"" + (":" + (Render(p.value) + tail))))
  }

  /** The properties `props`, each after a comma, followed by `tail`. */
  function PropsText(props: seq<Property>, tail: seq<char>): seq<char>
    decreases |props|
  {
    if props == [] then tail else "," + PropertyText(props[0], PropsText(props[1..], tail))
  }

  // ---------------------------------------------------------------------
  // The text the writer produces, read from the front.

  lemma {:induction false} ItemsTextSnoc(xs: seq<Json>, y: Json, tail: seq<char>)
    ensures ItemsText(xs, "," + (Render(y) + tail)) == ItemsText(xs + [y], tail)
    decreases |xs|
  {
    if xs == [] {
      assert [y][1..] == [];
    } else {
      assert (xs + [y])[1..] == xs[1..] + [y];
      ItemsTextSnoc(xs[1..], y, tail);
    }
  }

  /** The elements as the writer renders them, then `tail`: the first
      element, then each further one after a comma. */
  lemma {:induction false} ItemsTextIs(v: Json, items: seq<Json>, tail: seq<char>)
    requires forall i :: 0 <= i < |items| ==> items[i] < v
    ensures RenderItems(v, items) + tail
            == if items == [] then tail else Render(items[0]) + ItemsText(items[1..], tail)
    decreases |items|
  {
    if items != [] {
      var init := items[..|items| - 1];
      var last := items[|items| - 1];
      if init == [] {
        assert items == [last];
        assert RenderItems(v, items) == Render(last);
      } else {
        var tail' := "," + (Render(last) + tail);
        assert RenderItems(v, items) == RenderItems(v, init) + "," + Render(last);
        Regroup(RenderItems(v, init), ",", Render(last), tail);
        ItemsTextIs(v, init, tail');
        ItemsTextSnoc(init[1..], last, tail);
        SliceSnoc(items);
      }
    }
  }

  /** A proof helper: concatenation regrouped, stated on its own so that
      the callers stay cheap. */
  lemma Regroup(a: seq<char>, b: seq<char>, c: seq<char>, d: seq<char>)
    ensures a + b + c + d == a + (b + (c + d))
  {
  }

  lemma {:induction false} PropsTextSnoc(xs: seq<Property>, y: Property, tail: seq<char>)
    ensures PropsText(xs, "," + PropertyText(y, tail)) == PropsText(xs + [y], tail)
    decreases |xs|
  {
    if xs == [] {
      assert [y][1..] == [];
    } else {
      assert (xs + [y])[1..] == xs[1..] + [y];
      PropsTextSnoc(xs[1..], y, tail);
    }
  }

  /** A property as the writer renders it, regrouped from the front. A
      proof helper, like Regroup. */
  lemma PropertyTextIs(before: seq<char>, p: Property, tail: seq<char>)
    ensures before + Quoted(p.name) + ":" + Render(p.value) + tail == before + PropertyText(p, tail)
  {
  }

  /** The properties as the writer renders them, then `tail`: the first
      property, then each further one after a comma. */
  lemma {:induction false} PropsTextIs(v: Json, props: seq<Property>, tail: seq<char>)
    requires forall i :: 0 <= i < |props| ==> props[i].value < v
    ensures RenderProps(v, props) + tail
            == if props == [] then tail else PropertyText(props[0], PropsText(props[1..], tail))
    decreases |props|
  {
    if props != [] {
      var init := props[..|props| - 1];
      var last := props[|props| - 1];
      var sep := if |props| > 1 then "," else "";
      var before := RenderProps(v, init) + sep;
      assert RenderProps(v, props) == before + Quoted(last.name) + ":" + Render(last.value);
      PropertyTextIs(before, last, tail);
      if init == [] {
        assert props == [last];
        assert before == [];
      } else {
        var tail' := "," + PropertyText(last, tail);
        AppendAssoc(RenderProps(v, init), ",", PropertyText(last, tail));
        PropsTextIs(v, init, tail');
        PropsTextSnoc(init[1..], last, tail);
        SliceSnoc(props);
      }
    }
  }

  // ---------------------------------------------------------------------
  // Single reading steps.

  /** Skipping whitespace where none is pending changes nothing. */
  lemma NoSpace(p: seq<char>)
    requires p == [] || p[0] !in Whitespace
    ensures SkipWs(p) == p
  {
  }

  /** Consuming a one-character prefix leaves what follows it. */
  lemma DropFirst(a: seq<char>, rest: seq<char>)
    requires |a| == 1
    ensures Suffix(a + rest, 1) == rest
  {
    assert (a + rest)[1..] == rest;
  }

  lemma DigitChar(c: char)
    requires '0' <= c <= '9'
    ensures c in NumberChars && c in ValueStarts
  {
    assert c == '0' || c == '1' || c == '2' || c == '3' || c == '4'
        || c == '5' || c == '6' || c == '7' || c == '8' || c == '9';
  }

  /** The text of a well-formed decimal is made of number characters and
      starts with a minus sign or a digit. */
  lemma {:induction false} NumberText(d: Toolbox.Decimal)
    requires Toolbox.WellFormed(d)
    ensures var s := Toolbox.ToString(d);
            && |s| > 0 && (s[0] == '-' || IsDigit(s[0])) && s[0] in ValueStarts && s[0] !in Whitespace
            && forall i :: 0 <= i < |s| ==> s[i] in NumberChars
  {
    var s := Toolbox.ToString(d);
    var sign := if d.negative then "-" else "";
    var frac := if d.fraction == [] then "" else "." + d.fraction;
    assert s == sign + d.whole + frac;
    forall i | 0 <= i < |s|
      ensures s[i] in NumberChars
    {
      if i < |sign| {
      } else if i < |sign| + |d.whole| {
        assert s[i] == d.whole[i - |sign|];
        DigitChar(s[i]);
      } else if i > |sign| + |d.whole| {
        assert s[i] == d.fraction[i - |sign| - |d.whole| - 1];
        DigitChar(s[i]);
      }
    }
    if !d.negative {
      assert s[0] == d.whole[0];
      DigitChar(s[0]);
    }
  }

  /** What may follow a value is no number character, ends a literal and
      is no whitespace. */
  lemma DelimiterIs(t: seq<char>)
    requires Delimits(t)
    ensures t != [] ==> t[0] !in NumberChars && t[0] in LiteralEnds && t[0] !in Whitespace
  {
  }

  lemma NumberCharIs(c: char)
    requires c in NumberChars
    ensures c != '\0' && c !in Whitespace
  {
  }

  /** A token that holds no stop and is followed by a stop, or by nothing,
      is cut whole. */
  lemma {:induction false} TokenIs(x: seq<char>, t: seq<char>, max: nat, chars: seq<char>, until: bool)
    requires 0 < |x| <= max && x[|x| - 1] != '\0'
    requires forall i :: 0 <= i < |x| ==> (x[i] in chars) != until
    requires t == [] || (t[0] in chars) == until
    ensures Token(x + t, max, chars, '\0', until) == (x, t)
  {
    var q := x + t;
    var w := Window(q, max);
    assert w[..|x|] == x;
    assert forall j :: 0 <= j < |x| ==> w[j] == x[j];
    if |x| < |w| {
      assert w[|x|] == t[0];
      assert RunBefore(w, |x|, '\0') == 0;
    }
    ScanLenSpec(w, chars, '\0', until, 0, |x|);
    SuffixIs(q, |x|);
    assert q[|x|..] == t;
  }

  /** Every quote of escaped text has an odd run of backslashes before it. */
  predicate QuotesEscaped(x: seq<char>) {
    forall j :: 0 <= j < |x| && x[j] == '"' ==> RunBefore(x, j, '\\') % 2 == 1
  }

  lemma {:induction false} EscapeQuotesEscaped(s: seq<char>)
    ensures QuotesEscaped(Escape(s, '\\', Quote))
    decreases |s|
  {
    if s != [] {
      var init := s[..|s| - 1];
      var c := s[|s| - 1];
      assert s == init + [c];
      EscapeQuotesEscaped(init);
      EscapeSnoc(init, c, '\\', Quote);
      DefaultRewriteUndoesEscape(init, '\\', Quote);
      var x := Escape(init, '\\', Quote);
      PairedIffEvenRun(x, '\\');
      QuotesEscapedSnoc(x, c);
    }
  }

  /** Appending one more escaped character keeps every quote escaped. */
  lemma {:induction false} QuotesEscapedSnoc(x: seq<char>, c: char)
    requires QuotesEscaped(x) && RunBefore(x, |x|, '\\') % 2 == 0
    ensures QuotesEscaped(x + (if c == '\\' || c in Quote then ['\\', c] else [c]))
  {
    var y := x + (if c == '\\' || c in Quote then ['\\', c] else [c]);
    assert forall i :: 0 <= i < |x| ==> y[i] == x[i];
    forall j | 0 <= j < |y| && y[j] == '"'
      ensures RunBefore(y, j, '\\') % 2 == 1
    {
      if j < |x| {
        RunBeforeAgree(y, x, j, '\\');
      } else {
        assert j == |x| + 1 && y[|x|] == '\\';
        assert RunBefore(y, j, '\\') == 1 + RunBefore(y, |x|, '\\');
        RunBeforeAgree(y, x, |x|, '\\');
      }
    }
  }

  /** The reader's quoted text, over the writer's escaped text and its
      closing quote: the first quote not escaped is the closing one, and
      the JSON handler gives back the original text. */
  lemma {:induction false} QuotedTextOf(s: seq<char>, t: seq<char>, max: nat)
    requires |Escape(s, '\\', Quote)| < max
    ensures QuotedText(Escape(s, '\\', Quote) + ("\"" + t), max) == Toolbox.Some((s, t))
  {
    var x := Escape(s, '\\', Quote);
    var q := x + ("\"" + t);
    var w := Window(q, max);
    assert w[..|x|] == x;
    assert forall i :: 0 <= i < |x| ==> w[i] == x[i];
    assert w[|x|] == '"';
    EscapeQuotesEscaped(s);
    JsonRewriteUndoesEscape(s);
    PairedIffEvenRun(x, '\\');
    RunBeforeAgree(w, x, |x|, '\\');
    forall j | 0 <= j < |x|
      ensures !StopsAt(w, j, "\"", '\\', true)
    {
      if w[j] == '"' {
        RunBeforeAgree(w, x, j, '\\');
      }
    }
    ScanLenSpec(w, "\"", '\\', true, 0, |x|);
    SuffixIs(q, |x|);
    assert q[|x|..] == "\"" + t;
    DropFirst("\"", t);
  }

  // ---------------------------------------------------------------------
  // Values.

  /** A literal followed by a delimiter parses as its head. */
  lemma {:induction false} LiteralParses(c: char, t: seq<char>, max: nat)
    requires (c == 'n' || c == 't' || c == 'f') && |Literal(c)| <= max && Delimits(t)
    ensures ParseValue(Literal(c) + t, max) == Ok(LiteralHead(c), t)
  {
    var x := Literal(c);
    var q := x + t;
    assert q[0] == c;
    NoSpace(q);
    assert PeekIn(q, ValueStarts) == c;
    assert forall i :: 0 <= i < |x| ==> 'a' <= x[i] <= 'z';
    TokenIs(x, t, max, LiteralEnds, true);
    assert LiteralAt(q, max, c) == Toolbox.Some((LiteralHead(c), t));
    assert HeadAt(q, max) == Toolbox.Some((LiteralHead(c), t));
    NoSpace(t);
  }

  lemma {:induction false} LiteralReads(v: Json, t: seq<char>, max: nat)
    requires v.JNull? || v.JBool?
    requires InWindow(v, max) && Delimits(t)
    ensures var r := ParseValue(Render(v) + t, max);
            r.Ok? && ReadFrom(r.value, r.rest, max) == Ok(v, t)
  {
    var c := if v.JNull? then 'n' else if v.b then 't' else 'f';
    assert Render(v) == Literal(c);
    LiteralParses(c, t, max);
    assert Scalar(LiteralHead(c)) == v;
  }

  /** A number token followed by a delimiter parses as the decimal the
      token denotes. */
  lemma {:induction false} NumberParses(x: seq<char>, d: Toolbox.Decimal, t: seq<char>, max: nat)
    requires Toolbox.FromString(x) == Toolbox.Some(d) && 0 < |x| <= max && Delimits(t)
    requires (x[0] == '-' || IsDigit(x[0])) && x[0] in ValueStarts && x[0] !in Whitespace
    requires forall i :: 0 <= i < |x| ==> x[i] in NumberChars
    ensures ParseValue(x + t, max) == Ok(NumberHead(d), t)
  {
    var q := x + t;
    assert q[0] == x[0];
    NoSpace(q);
    assert PeekIn(q, ValueStarts) == x[0];
    DelimiterIs(t);
    NumberCharIs(x[|x| - 1]);
    assert forall i :: 0 <= i < |x| ==> (x[i] in NumberChars) != false;
    TokenIs(x, t, max, NumberChars, false);
    assert NumberAt(q, max) == Toolbox.Some((NumberHead(d), t));
    HeadAtNumber(q, max);
    NoSpace(t);
  }

  /** Value::parse takes a minus sign or a digit for the start of a number. */
  lemma HeadAtNumber(q: seq<char>, max: nat)
    requires var c := PeekIn(q, ValueStarts); c == '-' || IsDigit(c)
    ensures HeadAt(q, max) == NumberAt(q, max)
  {
    var c := PeekIn(q, ValueStarts);
    assert c != 'n' && c != 't' && c != 'f' && c != '"';
  }

  lemma {:induction false} NumberReads(v: Json, t: seq<char>, max: nat)
    requires v.JNumber?
    requires InWindow(v, max) && Delimits(t)
    ensures var r := ParseValue(Render(v) + t, max);
            r.Ok? && ReadFrom(r.value, r.rest, max) == Ok(v, t)
  {
    var x := Toolbox.ToString(v.d);
    assert Render(v) == x;
    NumberText(v.d);
    Toolbox.FromStringToString(v.d);
    NumberParses(x, v.d, t, max);
    assert ReadFrom(NumberHead(v.d), t, max) == Ok(v, t);
  }

  /** A string as the writer quotes it parses as the same string. */
  lemma {:induction false} StringParses(s: seq<char>, t: seq<char>, max: nat)
    requires |Escape(s, '\\', Quote)| < max && Delimits(t)
    ensures ParseValue(Quoted(s) + t, max) == Ok(StringHead(s), t)
  {
    var x := Escape(s, '\\', Quote);
    var q := Quoted(s) + t;
    assert q == "\"" + (x + ("\"" + t));
    NoSpace(q);
    assert PeekIn(q, ValueStarts) == '"';
    DropFirst("\"", x + ("\"" + t));
    QuotedTextOf(s, t, max);
    assert StringAt(q, max) == Toolbox.Some((StringHead(s), t));
    assert HeadAt(q, max) == Toolbox.Some((StringHead(s), t));
    NoSpace(t);
  }

  lemma {:induction false} StringReads(v: Json, t: seq<char>, max: nat)
    requires v.JString?
    requires InWindow(v, max) && Delimits(t)
    ensures var r := ParseValue(Render(v) + t, max);
            r.Ok? && ReadFrom(r.value, r.rest, max) == Ok(v, t)
  {
    assert Render(v) == Quoted(v.s);
    StringParses(v.s, t, max);
    assert ReadFrom(StringHead(v.s), t, max) == Ok(v, t);
  }

  /** What the writer writes for `v`, followed by a separator, a closer or
      nothing, parses as a value that reads back as `v`, leaving exactly
      the text that followed. */
  lemma {:induction false} ValueReads(v: Json, t: seq<char>, max: nat)
    requires InWindow(v, max) && Delimits(t)
    ensures var r := ParseValue(Render(v) + t, max);
            r.Ok? && ReadFrom(r.value, r.rest, max) == Ok(v, t)
    decreases v, 2
  {
    match v
    case JNull => LiteralReads(v, t, max);
    case JBool(_) => LiteralReads(v, t, max);
    case JNumber(_) => NumberReads(v, t, max);
    case JString(_) => StringReads(v, t, max);
    case JList(_) => ListReads(v, t, max);
    case JObject(_) => ObjectReads(v, t, max);
  }

  /** The first character of what the writer writes for a value. */
  lemma {:induction false} RenderStart(v: Json, max: nat)
    requires InWindow(v, max)
    ensures Render(v) != []
    ensures var c := Render(v)[0];
            c in ValueStarts && c !in Whitespace && c != ']' && c != '}'
  {
    match v
    case JNumber(d) =>
      NumberText(d);
      var c := Render(v)[0];
      assert c == '-' || '0' <= c <= '9';
    case JString(s) =>
    case _ =>
  }

  /** The elements of `v` are below it and fit the window. */
  ghost predicate ItemsFit(v: Json, items: seq<Json>, max: nat) {
    forall i :: 0 <= i < |items| ==> items[i] < v && InWindow(items[i], max)
  }

  lemma ItemsFitTail(v: Json, items: seq<Json>, max: nat)
    requires ItemsFit(v, items, max) && items != []
    ensures items[0] < v && InWindow(items[0], max) && ItemsFit(v, items[1..], max)
  {
    assert forall i :: 0 <= i < |items| - 1 ==> items[1..][i] == items[i + 1];
  }

  /** The properties of `v` are below it and fit the window. */
  ghost predicate PropsFit(v: Json, props: seq<Property>, max: nat) {
    forall i :: 0 <= i < |props| ==>
      props[i].value < v && |Escape(props[i].name, '\\', Quote)| < max && InWindow(props[i].value, max)
  }

  lemma PropsFitTail(v: Json, props: seq<Property>, max: nat)
    requires PropsFit(v, props, max) && props != []
    ensures props[0].value < v && |Escape(props[0].name, '\\', Quote)| < max && InWindow(props[0].value, max)
    ensures PropsFit(v, props[1..], max)
  {
    assert forall i :: 0 <= i < |props| - 1 ==> props[1..][i] == props[i + 1];
  }

  /** A proof helper: a sequence without its last element, then without its
      first, with the last put back, is the sequence without its first. */
  lemma SliceSnoc<T>(s: seq<T>)
    requires |s| >= 2
    ensures s[..|s| - 1][1..] + [s[|s| - 1]] == s[1..] && s[..|s| - 1][0] == s[0]
  {
  }

  /** A proof helper: a sequence split after its first element. */
  lemma ConsSplit<T>(acc: seq<T>, todo: seq<T>)
    requires todo != []
    ensures acc + [todo[0]] + todo[1..] == acc + todo
  {
    assert todo == [todo[0]] + todo[1..];
  }

  /** The text after an element of a list starts with a comma or the
      closing bracket. */
  lemma ItemsTextDelimits(items: seq<Json>, t: seq<char>)
    ensures Delimits(ItemsText(items, "]" + t))
  {
  }

  lemma ItemsTextStarts(items: seq<Json>, t: seq<char>)
    ensures ItemsText(items, "]" + t) != []
    ensures ItemsText(items, "]" + t)[0] == (if items == [] then ']' else ',')
  {
  }

  /** A container as the writer writes it parses as the start of a
      container, and its opening bracket gives way to what it holds. */
  lemma {:induction false} Opens(bracket: char, inner: seq<char>, max: nat)
    requires bracket == '[' || bracket == '{'
    ensures var q := [bracket] + inner;
            && ParseValue(q, max) == Ok(if bracket == '[' then ListHead else ObjectHead, q)
            && Open(q, bracket) == Toolbox.Some(inner)
  {
    var q := [bracket] + inner;
    NoSpace(q);
    assert PeekIn(q, ValueStarts) == bracket;
    DropFirst([bracket], inner);
  }

  /** Reading a container whose bracket gives way to `inner` is reading
      it from the iterator's first step over `inner`. */
  lemma ReadFromOpen(h: Head, q: seq<char>, inner: seq<char>, max: nat)
    requires h == ListHead || h == ObjectHead
    requires Open(q, if h == ListHead then '[' else '{') == Toolbox.Some(inner)
    ensures h == ListHead ==> ReadFrom(h, q, max) == ReadList(ListFirst(inner, max), [], max)
    ensures h == ObjectHead ==> ReadFrom(h, q, max) == ReadObject(ObjectFirst(inner, max), [], max)
  {
  }

  /** The text of a list, then `t`, regrouped behind its bracket. */
  lemma ListText(v: Json, t: seq<char>)
    requires v.JList?
    ensures Render(v) + t == ['['] + (RenderItems(v, v.items) + ("]" + t))
  {
  }

  /** The text of an object, then `t`, regrouped behind its brace. */
  lemma ObjectText(v: Json, t: seq<char>)
    requires v.JObject?
    ensures Render(v) + t == ['{'] + (RenderProps(v, v.props) + ("}" + t))
  {
  }

  /** List::Iterator's first step over the writer's elements. */
  lemma {:induction false} ListFirstItems(v: Json, items: seq<Json>, t: seq<char>, max: nat)
    requires ItemsFit(v, items, max) && Delimits(t)
    ensures ListFirst(RenderItems(v, items) + ("]" + t), max)
            == if items == [] then Done(t)
               else StepOf(ParseValue(Render(items[0]) + ItemsText(items[1..], "]" + t), max))
  {
    var inner := RenderItems(v, items) + ("]" + t);
    ItemsTextIs(v, items, "]" + t);
    if items == [] {
      NoSpace(inner);
      DropFirst("]", t);
      NoSpace(t);
    } else {
      var first := Render(items[0]);
      ItemsFitTail(v, items, max);
      RenderStart(items[0], max);
      assert inner == first + ItemsText(items[1..], "]" + t);
      assert inner[0] == first[0];
      NoSpace(inner);
      assert PeekIn(inner, "]") != ']';
    }
  }

  lemma {:induction false} ListReads(v: Json, t: seq<char>, max: nat)
    requires v.JList? && InWindow(v, max) && Delimits(t)
    ensures var r := ParseValue(Render(v) + t, max);
            r.Ok? && ReadFrom(r.value, r.rest, max) == Ok(v, t)
    decreases v, 1
  {
    var items := v.items;
    var inner := RenderItems(v, items) + ("]" + t);
    ListText(v, t);
    Opens('[', inner, max);
    ReadFromOpen(ListHead, Render(v) + t, inner, max);
    assert ItemsFit(v, items, max);
    ListFirstItems(v, items, t, max);
    if items == [] {
      assert ReadList(Done(t), [], max) == Ok(v, t);
    } else {
      var rest := ItemsText(items[1..], "]" + t);
      var r := ParseValue(Render(items[0]) + rest, max);
      ItemsFitTail(v, items, max);
      ItemsTextDelimits(items[1..], t);
      ValueReads(items[0], rest, max);
      assert ListFirst(inner, max) == Next(r.value, r.rest);
      ListTail(v, items[1..], [] + [items[0]], t, max);
      ReadListStep(r.value, r.rest, items[0], rest, [], max);
      ConsSplit([], items);
      assert [] + items == items;
    }
  }

  /** Reading a list on after an element, from the rest of the writer's
      text: each further element reads back, and the list ends at its
      closing bracket. */
  lemma {:induction false} ListTail(v: Json, todo: seq<Json>, acc: seq<Json>, t: seq<char>, max: nat)
    requires ItemsFit(v, todo, max) && Delimits(t)
    ensures var next := ListFollowing(ItemsText(todo, "]" + t), max);
            !next.Stopped? && ReadList(next, acc, max) == Ok(JList(acc + todo), t)
    decreases v, 0, |todo|
  {
    ListFollowingItems(todo, t, max);
    if todo == [] {
      assert acc + todo == acc;
    } else {
      var rest := ItemsText(todo[1..], "]" + t);
      var r := ParseValue(Render(todo[0]) + rest, max);
      ItemsFitTail(v, todo, max);
      ItemsTextDelimits(todo[1..], t);
      ValueReads(todo[0], rest, max);
      ListTail(v, todo[1..], acc + [todo[0]], t, max);
      ReadListStep(r.value, r.rest, todo[0], rest, acc, max);
      ConsSplit(acc, todo);
    }
  }

  /** The iterator step after an element, over the writer's text. */
  lemma {:induction false} ListFollowingItems(todo: seq<Json>, t: seq<char>, max: nat)
    requires Delimits(t)
    ensures ListFollowing(ItemsText(todo, "]" + t), max)
            == if todo == [] then Done(t)
               else StepOf(ParseValue(Render(todo[0]) + ItemsText(todo[1..], "]" + t), max))
  {
    var text := ItemsText(todo, "]" + t);
    ItemsTextStarts(todo, t);
    NoSpace(text);
    if todo == [] {
      DropFirst("]", t);
      NoSpace(t);
    } else {
      DropFirst(",", Render(todo[0]) + ItemsText(todo[1..], "]" + t));
    }
  }

  /** Reading a list on from an element that reads as `x`. */
  lemma {:induction false} ReadListStep(h: Head, p: seq<char>, x: Json, after: seq<char>, acc: seq<Json>, max: nat)
    requires ReadFrom(h, p, max) == Ok(x, after)
    requires !ListFollowing(after, max).Stopped?
    ensures ReadList(Next(h, p), acc, max) == ReadList(ListFollowing(after, max), acc + [x], max)
  {
  }

  /** A property as the writer writes it parses to its name and the head
      of its value. */
  lemma {:induction false} PropertyParses(p: Property, tail: seq<char>, max: nat)
    requires |Escape(p.name, '\\', Quote)| < max
    ensures var r := ParseValue(Render(p.value) + tail, max);
            r.Ok? ==> PropertyAt(PropertyText(p, tail), max) == Ok((p.name, r.value), r.rest)
  {
    var x := Escape(p.name, '\\', Quote);
    var after := ":" + (Render(p.value) + tail);
    var q := PropertyText(p, tail);
    assert q == "\"" + (x + ("\"" + after));
    NoSpace(q);
    DropFirst("\"", x + ("\"" + after));
    QuotedTextOf(p.name, after, max);
    NoSpace(after);
    DropFirst(":", Render(p.value) + tail);
  }

  lemma PropsTextStarts(props: seq<Property>, t: seq<char>)
    ensures PropsText(props, "}" + t) != []
    ensures PropsText(props, "}" + t)[0] == (if props == [] then '}' else ',')
  {
  }

  /** Object::Iterator's first step over the writer's properties. */
  lemma {:induction false} ObjectFirstProps(v: Json, props: seq<Property>, t: seq<char>, max: nat)
    requires PropsFit(v, props, max) && Delimits(t)
    ensures ObjectFirst(RenderProps(v, props) + ("}" + t), max)
            == if props == [] then Done(t)
               else StepOf(PropertyAt(PropertyText(props[0], PropsText(props[1..], "}" + t)), max))
  {
    var inner := RenderProps(v, props) + ("}" + t);
    PropsTextIs(v, props, "}" + t);
    if props == [] {
      assert inner == "}" + t;
      NoSpace(inner);
      DropFirst("}", t);
      NoSpace(t);
    } else {
      var q := PropertyText(props[0], PropsText(props[1..], "}" + t));
      assert inner == q;
      assert q[0] == '"';
      NoSpace(q);
      assert PeekIn(q, "}") != '}';
    }
  }

  lemma {:induction false} ObjectReads(v: Json, t: seq<char>, max: nat)
    requires v.JObject? && InWindow(v, max) && Delimits(t)
    ensures var r := ParseValue(Render(v) + t, max);
            r.Ok? && ReadFrom(r.value, r.rest, max) == Ok(v, t)
    decreases v, 1
  {
    var props := v.props;
    var inner := RenderProps(v, props) + ("}" + t);
    ObjectText(v, t);
    Opens('{', inner, max);
    ReadFromOpen(ObjectHead, Render(v) + t, inner, max);
    assert PropsFit(v, props, max);
    ObjectFirstProps(v, props, t, max);
    if props == [] {
      assert ReadObject(Done(t), [], max) == Ok(v, t);
    } else {
      var p := props[0];
      var rest := PropsText(props[1..], "}" + t);
      var r := ParseValue(Render(p.value) + rest, max);
      PropsFitTail(v, props, max);
      PropsTextStarts(props[1..], t);
      ValueReads(p.value, rest, max);
      PropertyParses(p, rest, max);
      assert ObjectFirst(inner, max) == Next((p.name, r.value), r.rest);
      ObjectTail(v, props[1..], [] + [p], t, max);
      ReadObjectStep(p.name, r.value, r.rest, p.value, rest, [], max);
      ConsSplit([], props);
      assert [] + props == props;
    }
  }

  /** Reading an object on after a property, from the rest of the writer's
      text. */
  lemma {:induction false} ObjectTail(v: Json, todo: seq<Property>, acc: seq<Property>, t: seq<char>, max: nat)
    requires PropsFit(v, todo, max) && Delimits(t)
    ensures var next := ObjectFollowing(PropsText(todo, "}" + t), max);
            !next.Stopped? && ReadObject(next, acc, max) == Ok(JObject(acc + todo), t)
    decreases v, 0, |todo|
  {
    ObjectFollowingProps(todo, t, max);
    if todo == [] {
      assert acc + todo == acc;
    } else {
      var p := todo[0];
      var rest := PropsText(todo[1..], "}" + t);
      var r := ParseValue(Render(p.value) + rest, max);
      PropsFitTail(v, todo, max);
      PropsTextStarts(todo[1..], t);
      ValueReads(p.value, rest, max);
      PropertyParses(p, rest, max);
      ObjectTail(v, todo[1..], acc + [p], t, max);
      ReadObjectStep(p.name, r.value, r.rest, p.value, rest, acc, max);
      ConsSplit(acc, todo);
    }
  }

  /** The iterator step after a property, over the writer's text. */
  lemma {:induction false} ObjectFollowingProps(todo: seq<Property>, t: seq<char>, max: nat)
    requires Delimits(t)
    ensures ObjectFollowing(PropsText(todo, "}" + t), max)
            == if todo == [] then Done(t)
               else StepOf(PropertyAt(PropertyText(todo[0], PropsText(todo[1..], "}" + t)), max))
  {
    var text := PropsText(todo, "}" + t);
    PropsTextStarts(todo, t);
    NoSpace(text);
    if todo == [] {
      DropFirst("}", t);
      NoSpace(t);
    } else {
      DropFirst(",", PropertyText(todo[0], PropsText(todo[1..], "}" + t)));
    }
  }

  /** Reading an object on from a property whose value reads as `x`. */
  lemma {:induction false} ReadObjectStep(name: seq<char>, h: Head, p: seq<char>, x: Json, after: seq<char>,
                                          acc: seq<Property>, max: nat)
    requires ReadFrom(h, p, max) == Ok(x, after)
    requires !ObjectFollowing(after, max).Stopped?
    ensures ReadObject(Next((name, h), p), acc, max)
            == ReadObject(ObjectFollowing(after, max), acc + [Property(name, x)], max)
  {
  }

  // ---------------------------------------------------------------------
  // The round trip.

  /** Any document whose scalars fit the reader's window, rendered as the
      writer renders it, parses and reads back as the same document, with
      no text left over. */
  lemma {:induction false} RenderReads(v: Json, max: nat)
    requires InWindow(v, max)
    ensures var r := ParseValue(Render(v), max);
            r.Ok? && ReadFrom(r.value, r.rest, max) == Ok(v, [])
  {
    ValueReads(v, [], max);
    assert Render(v) + [] == Render(v);
  }

  /** A fresh writer given the calls of a document that nests at most 20
      deep writes text that the reader reads back as that document. */
  lemma {:induction false} WrittenDocumentReads(v: Json, max: nat)
    requires WriterSpec.Fits(v, WriterSpec.MaxStack) && InWindow(v, max)
    ensures var out := WriterSpec.Run(WriterSpec.Initial, WriterSpec.Calls(v)).output;
            var r := ParseValue(out, max);
            r.Ok? && ReadFrom(r.value, r.rest, max) == Ok(v, [])
  {
    WriterSpec.WriteDocument(v);
    RenderReads(v, max);
  }
}
