/** The pull reader: a value parsed from a shared tokenizer, the iterators
    of lists and objects that parse their elements one at a time, skipping a
    value with everything nested in it, and the reader that owns the
    tokenizer. Every operation is proved to move the pending text exactly as
    the matching function of ReaderSpec says. */
module Readers {
  import opened CStrings
  import opened Escapes
  import opened TokenizerSpec
  import opened Documents
  import opened ReaderSpec
  import opened Tokenizers
  import opened ReaderSteps
  import Toolbox
  import TS = TokenizerStates

  /** makeReader's default MAX_TOKEN_LENGTH. */
  const DefaultMaxTokenLength: nat := 64

  /** A Value, and a List, Object or Property seen as one: they share the
      tokenizer, the type tag and the primitive payload, and differ only in
      how they parse. */
  class Value {
    const tokenizer: Tokenizer
    var valueType: ValueType
    var boolean: bool
    var decimal: Toolbox.Decimal

    constructor (tokenizer: Tokenizer)
      ensures this.tokenizer == tokenizer && valueType == Invalid
    {
      this.tokenizer := tokenizer;
      valueType := Invalid;
      boolean := false;
      decimal := Toolbox.Decimal(false, "0", "");
    }

    /** The value holds what a parse found as `h`: its type tag, and the
        payload in the field or the storage slot the type reads it from
        (slot 0 for a string, when the tokenizer has one). */
    ghost predicate Shows(h: Head)
      reads this, tokenizer`tokens
    {
      && valueType == TypeOf(h)
      && match h
         case BooleanHead(b) => boolean == b
         case NumberHead(d) => decimal == d && Toolbox.WellFormed(d)
         case StringHead(s) => 0 < |tokenizer.tokens| ==> tokenizer.tokens[0] == s
         case _ => true
    }

    /** What an iterator step leaves: the value shows the next element and
        the pending text follows it; or the value is invalid because the
        container ended, the pending text following its closer; or the
        value is invalid and the tokenizer aborted. */
    ghost predicate Took(st: Step<Head>)
      reads this, tokenizer, tokenizer.buffer
      requires tokenizer.Valid()
    {
      match st
      case Stopped => valueType == Invalid && tokenizer.aborted
      case Done(rest) => valueType == Invalid && !tokenizer.aborted && tokenizer.Pending() == rest
      case Next(h, rest) => Shows(h) && !tokenizer.aborted && tokenizer.Pending() == rest
    }

    /** Storage slot 1 holds the property name `name`, when there is one. */
    ghost predicate Named(name: seq<char>)
      reads tokenizer`tokens
    {
      1 < |tokenizer.tokens| ==> tokenizer.tokens[1] == name
    }

    /** Took, for the property a step of an object iterator parses. */
    ghost predicate TookProperty(st: Step<(seq<char>, Head)>)
      reads this, tokenizer, tokenizer.buffer
      requires tokenizer.Valid()
    {
      match st
      case Stopped => valueType == Invalid && tokenizer.aborted
      case Done(rest) => valueType == Invalid && !tokenizer.aborted && tokenizer.Pending() == rest
      case Next((name, h), rest) => Shows(h) && Named(name) && !tokenizer.aborted && tokenizer.Pending() == rest
    }

    /** The storage slots other than `slot` still hold what they held in
        `before`. */
    ghost predicate SlotsKept(before: seq<seq<char>>, slot: nat)
      reads tokenizer`tokens
    {
      && |tokenizer.tokens| == |before|
      && forall i :: 0 <= i < |before| && i != slot ==> tokenizer.tokens[i] == before[i]
    }

    /** invalidate() */
    method Invalidate()
      modifies this`valueType
      ensures valueType == Invalid
    {
      valueType := Invalid;
    }

    /** Value::parse(): whitespace, the head of a value, and the whitespace
        after it; on failure the tokenizer is aborted. An aborted tokenizer
        gives an invalid value and is left as it is. */
    method Parse()
      requires tokenizer.Valid()
      modifies this, tokenizer, tokenizer.buffer
      ensures tokenizer.Valid() && SlotsKept(old(tokenizer.tokens), 0)
      ensures !old(tokenizer.aborted) ==>
                Took(StepOf(ParseValue(old(tokenizer.Pending()), tokenizer.maxTokenLength)))
      ensures old(tokenizer.aborted) ==>
                valueType == Invalid && tokenizer.aborted && tokenizer.State() == old(tokenizer.State())
    {
      valueType := Invalid;
      SkipSpace(tokenizer);
      ParseAfterSpace();
    }

    /** Value::parse after the whitespace before the value. */
    method ParseAfterSpace()
      requires tokenizer.Valid() && valueType == Invalid
      modifies this, tokenizer, tokenizer.buffer
      ensures tokenizer.Valid() && SlotsKept(old(tokenizer.tokens), 0)
      ensures !old(tokenizer.aborted) ==>
                Took(StepOf(ValueAt(old(tokenizer.Pending()), tokenizer.maxTokenLength)))
      ensures old(tokenizer.aborted) ==>
                valueType == Invalid && tokenizer.aborted && tokenizer.State() == old(tokenizer.State())
    {
      ghost var hd := HeadAt(tokenizer.Pending(), tokenizer.maxTokenLength);
      assert NoNul(ValueStarts);
      var c := PeekFor(tokenizer, ValueStarts);
      ParseHead(c);
      EndValue(hd);
    }

    /** The end of Value::parse, after the switch that found `hd`: the
        whitespace after a value is skipped; no value aborts. */
    method EndValue(ghost hd: Toolbox.Maybe<(Head, seq<char>)>)
      requires tokenizer.Valid()
      requires tokenizer.aborted ==> valueType == Invalid
      requires !tokenizer.aborted ==>
                 match hd
                 case None => valueType == Invalid
                 case Some((h, rest)) => Shows(h) && tokenizer.Pending() == rest
      modifies tokenizer, tokenizer.buffer
      ensures tokenizer.Valid() && unchanged(tokenizer`tokens)
      ensures !old(tokenizer.aborted) ==> Took(StepOf(AfterHead(hd)))
      ensures old(tokenizer.aborted) ==> tokenizer.aborted && tokenizer.State() == old(tokenizer.State())
    {
      if valueType != Invalid {
        SkipSpace(tokenizer);
      } else {
        tokenizer.Abort();
      }
    }

    /** The switch of Value::parse on the peeked character `c`. */
    method ParseHead(c: char)
      requires tokenizer.Valid() && valueType == Invalid
      requires !tokenizer.aborted ==> Ready(tokenizer) && c == PeekIn(tokenizer.Pending(), ValueStarts)
      requires tokenizer.aborted ==> c == '\0'
      modifies this, tokenizer, tokenizer.buffer
      ensures tokenizer.Valid() && tokenizer.aborted == old(tokenizer.aborted)
      ensures SlotsKept(old(tokenizer.tokens), 0)
      ensures old(tokenizer.aborted) ==> valueType == Invalid && tokenizer.State() == old(tokenizer.State())
      ensures !old(tokenizer.aborted) ==>
                match HeadAt(old(tokenizer.Pending()), tokenizer.maxTokenLength)
                case None => valueType == Invalid
                case Some((h, rest)) => Shows(h) && tokenizer.Pending() == rest
    {
      if c == 'n' || c == 't' || c == 'f' {
        ParseLiteral(c);
      } else if c == '"' {
        var ok := ReadQuoted(0);
        if ok {
          valueType := String;
        }
      } else if c == '-' || IsDigit(c) {
        ParseNumber();
      } else if c == '[' {
        valueType := List;
      } else if c == '{' {
        valueType := Object;
      }
    }

    /** The literal cases of Value::parse: the token up to a delimiter is
        compared with the literal and, when it matches, discarded. */
    method ParseLiteral(c: char)
      requires tokenizer.Valid() && !tokenizer.aborted && (c == 'n' || c == 't' || c == 'f')
      modifies this, tokenizer, tokenizer.buffer
      ensures tokenizer.Valid() && !tokenizer.aborted && unchanged(tokenizer`tokens)
      ensures match LiteralAt(old(tokenizer.Pending()), tokenizer.maxTokenLength, c)
              case None => valueType == Invalid
              case Some((h, rest)) => Shows(h) && tokenizer.Pending() == rest
    {
      assert NoNul(LiteralEnds);
      var stop := ScanToken(tokenizer, LiteralEnds, '\0', true);
      MatchLiteral(c);
    }

    /** The strcmp of a literal case of Value::parse: a token equal to the
        literal `c` announces is discarded and the value takes its type. */
    method MatchLiteral(c: char)
      requires tokenizer.Valid() && !tokenizer.aborted && (c == 'n' || c == 't' || c == 'f')
      requires tokenizer.Current() != [] ==> TS.HasToken(tokenizer.State())
      modifies this, tokenizer, tokenizer.buffer
      ensures tokenizer.Valid() && !tokenizer.aborted && unchanged(tokenizer`tokens)
      ensures if old(tokenizer.Current()) == Literal(c) then Shows(LiteralHead(c)) && tokenizer.Pending() == old(tokenizer.Pending())
              else valueType == Invalid
    {
      if c == 'n' {
        if tokenizer.Current() == "null" {
          Discard(tokenizer);
          valueType := Null;
        } else {
          valueType := Invalid;
        }
      } else if c == 't' {
        if tokenizer.Current() == "true" {
          boolean := true;
          Discard(tokenizer);
          valueType := Boolean;
        } else {
          valueType := Invalid;
        }
      } else {
        if tokenizer.Current() == "false" {
          boolean := false;
          Discard(tokenizer);
          valueType := Boolean;
        } else {
          valueType := Invalid;
        }
      }
    }

    /** The number case of Value::parse: the run of number characters is
        read as a decimal and left as the token, for the skip that follows
        to discard. */
    method ParseNumber()
      requires tokenizer.Valid() && !tokenizer.aborted
      modifies this, tokenizer, tokenizer.buffer
      ensures tokenizer.Valid() && !tokenizer.aborted && unchanged(tokenizer`tokens)
      ensures match NumberAt(old(tokenizer.Pending()), tokenizer.maxTokenLength)
              case None => valueType == Invalid
              case Some((h, rest)) => Shows(h) && tokenizer.Pending() == rest
    {
      assert NoNul(NumberChars);
      var stop := ScanToken(tokenizer, NumberChars, '\0', false);
      ReadDecimal();
    }

    /** The decimal read from the scanned token: its value and whether it
        is an integer, or no value. */
    method ReadDecimal()
      requires tokenizer.Valid()
      modifies this`decimal, this`valueType
      ensures match Toolbox.FromString(tokenizer.Current())
              case None => valueType == Invalid
              case Some(d) => Shows(NumberHead(d))
    {
      var d := Toolbox.FromString(tokenizer.Current());
      if d.Some? {
        decimal := d.value;
        if Toolbox.IsInteger(d.value) {
          valueType := Integer;
        } else {
          valueType := Decimal;
        }
      } else {
        valueType := Invalid;
      }
    }

    /** The string step shared by Value::parse and Property::parse, from
        the opening quote: the text up to the closing quote is scanned, its
        escapes rewritten by the JSON handler and the result stored in
        `slot`; then the text and the closing quote are consumed. */
    method ReadQuoted(slot: nat) returns (ok: bool)
      requires tokenizer.Valid() && !tokenizer.aborted
      requires Ready(tokenizer) && PeekIn(tokenizer.Pending(), "\"") == '"'
      modifies tokenizer, tokenizer.buffer
      ensures tokenizer.Valid() && !tokenizer.aborted
      ensures match QuotedText(Suffix(old(tokenizer.Pending()), 1), tokenizer.maxTokenLength)
              case None => !ok && unchanged(tokenizer`tokens)
              case Some((s, rest)) =>
                && ok && tokenizer.Pending() == rest
                && tokenizer.tokens == if slot < tokenizer.maxTokens then old(tokenizer.tokens)[slot := s]
                                       else old(tokenizer.tokens)
    {
      QuotedStop(Suffix(tokenizer.Pending(), 1), tokenizer.maxTokenLength);
      Consume(tokenizer);
      assert NoNul("\"");
      var stop := ScanToken(tokenizer, "\"", '\\', true);
      if stop == '"' {
        EndQuoted(slot);
        ok := true;
      } else {
        ok := false;
      }
    }

    /** The end of the string step, at the closing quote: the token's
        escapes are rewritten, it is stored in `slot`, and the token and the
        quote are consumed. */
    method EndQuoted(slot: nat)
      requires tokenizer.Valid() && !tokenizer.aborted && TS.HasToken(tokenizer.State())
      requires Paired(TS.Token(tokenizer.State()), '\\') && tokenizer.Pending() != []
      modifies tokenizer, tokenizer.buffer
      ensures tokenizer.Valid() && !tokenizer.aborted
      ensures tokenizer.Pending() == Suffix(old(tokenizer.Pending()), 1)
      ensures var s := Rewrite(old(TS.Token(tokenizer.State())), '\\', JsonHandler);
              tokenizer.tokens == if slot < tokenizer.maxTokens then old(tokenizer.tokens)[slot := s]
                                  else old(tokenizer.tokens)
    {
      Unescape(tokenizer);
      tokenizer.StoreToken(slot);
      Discard(tokenizer);
      Consume(tokenizer);
    }

    /** List::parse() and Object::parse(): whitespace, then the opening
        bracket is required and consumed; otherwise the tokenizer aborts. */
    method ParseOpen(bracket: char, kind: ValueType)
      requires tokenizer.Valid() && bracket != '\0' && kind != Invalid
      modifies this, tokenizer, tokenizer.buffer
      ensures tokenizer.Valid() && unchanged(tokenizer`tokens)
      ensures !old(tokenizer.aborted) ==>
                match Open(old(tokenizer.Pending()), bracket)
                case None => valueType == Invalid && tokenizer.aborted
                case Some(q) => valueType == kind && !tokenizer.aborted && tokenizer.Pending() == q
      ensures old(tokenizer.aborted) ==>
                valueType == Invalid && tokenizer.aborted && tokenizer.State() == old(tokenizer.State())
    {
      valueType := Invalid;
      SkipSpace(tokenizer);
      OpenBracket(bracket, kind);
    }

    /** The bracket test of List::parse() and Object::parse(), after the
        whitespace: a bracket is consumed, anything else aborts. */
    method OpenBracket(bracket: char, kind: ValueType)
      requires tokenizer.Valid() && bracket != '\0' && kind != Invalid
      modifies this`valueType, tokenizer, tokenizer.buffer
      ensures tokenizer.Valid() && unchanged(tokenizer`tokens)
      ensures !old(tokenizer.aborted) ==>
                if PeekIn(old(tokenizer.Pending()), [bracket]) == bracket
                then valueType == kind && !tokenizer.aborted && tokenizer.Pending() == Suffix(old(tokenizer.Pending()), 1)
                else valueType == Invalid && tokenizer.aborted
      ensures old(tokenizer.aborted) ==>
                valueType == Invalid && tokenizer.aborted && tokenizer.State() == old(tokenizer.State())
    {
      assert NoNul([bracket]);
      var c := PeekFor(tokenizer, [bracket]);
      if c == bracket {
        Consume(tokenizer);
        valueType := kind;
      } else {
        tokenizer.Abort();
        valueType := Invalid;
      }
    }

    /** Property::parse(): whitespace, a quoted name stored in slot 1,
        whitespace, a colon, and the value; any failure aborts. */
    method ParseProperty()
      requires tokenizer.Valid()
      modifies this, tokenizer, tokenizer.buffer
      ensures tokenizer.Valid()
      ensures !old(tokenizer.aborted) ==>
                TookProperty(StepOf(PropertyAt(old(tokenizer.Pending()), tokenizer.maxTokenLength)))
      ensures old(tokenizer.aborted) ==>
                valueType == Invalid && tokenizer.aborted && tokenizer.State() == old(tokenizer.State())
    {
      valueType := Invalid;
      SkipSpace(tokenizer);
      assert NoNul("\"");
      var c := PeekFor(tokenizer, "\"");
      if c == '"' {
        ParseNamed();
      }
      if valueType == Invalid {
        tokenizer.Abort();
      }
    }

    /** Property::parse from the opening quote of the name: the name is
        read into slot 1, then the colon and the value follow. */
    method ParseNamed()
      requires Ready(tokenizer) && PeekIn(tokenizer.Pending(), "\"") == '"' && valueType == Invalid
      modifies this, tokenizer, tokenizer.buffer
      ensures tokenizer.Valid()
      ensures match NamedAt(old(tokenizer.Pending()), tokenizer.maxTokenLength)
              case Fail => valueType == Invalid
              case Ok((name, h), rest) => Shows(h) && Named(name) && !tokenizer.aborted && tokenizer.Pending() == rest
    {
      var ok := ReadQuoted(1);
      if ok {
        ParseAfterName();
      }
    }

    /** Property::parse after the name: whitespace, a colon, and the value,
        which stores nothing in slot 1. */
    method ParseAfterName()
      requires tokenizer.Valid() && !tokenizer.aborted && valueType == Invalid
      modifies this, tokenizer, tokenizer.buffer
      ensures tokenizer.Valid() && SlotsKept(old(tokenizer.tokens), 0)
      ensures match AfterName(old(tokenizer.Pending()), tokenizer.maxTokenLength)
              case Fail => valueType == Invalid
              case Ok(h, rest) => Shows(h) && !tokenizer.aborted && tokenizer.Pending() == rest
    {
      SkipSpace(tokenizer);
      assert NoNul(":");
      var c := PeekFor(tokenizer, ":");
      if c == ':' {
        Consume(tokenizer);
        Parse();
      }
    }

    /** asBoolean(): the boolean of a Boolean value. */
    function AsBoolean(): (r: Toolbox.Maybe<bool>)
      reads this
      ensures valueType != Boolean ==> r.None?
      ensures forall b :: Shows(BooleanHead(b)) ==> r == Toolbox.Some(b)
    {
      if valueType != Boolean then Toolbox.None else Toolbox.Some(boolean)
    }

    /** asDecimal(): the decimal of a number. */
    function AsDecimal(): (r: Toolbox.Maybe<Toolbox.Decimal>)
      reads this
      ensures valueType != Integer && valueType != Decimal ==> r.None?
      ensures forall d :: Shows(NumberHead(d)) ==> r == Toolbox.Some(d)
    {
      if valueType != Integer && valueType != Decimal then Toolbox.None else Toolbox.Some(decimal)
    }

    /** asInteger(): the integral part of a number. */
    function AsInteger(): (r: Toolbox.Maybe<int>)
      reads this
      requires valueType == Integer || valueType == Decimal ==> Toolbox.WellFormed(decimal)
      ensures valueType != Integer && valueType != Decimal ==> r.None?
      ensures forall d :: Shows(NumberHead(d)) ==> r == Toolbox.Some(Toolbox.Integer(d))
    {
      if valueType != Integer && valueType != Decimal then Toolbox.None
      else Toolbox.Some(Toolbox.Integer(decimal))
    }

    /** asString(): the text in storage slot 0 of a String value. */
    function AsString(): (r: Toolbox.Maybe<seq<char>>)
      reads this, tokenizer`tokens
      requires |tokenizer.tokens| == tokenizer.maxTokens
      ensures valueType != String ==> r.None?
      ensures forall s :: Shows(StringHead(s)) && 0 < tokenizer.maxTokens ==> r == Toolbox.Some(s)
    {
      if valueType != String then Toolbox.None else Toolbox.Some(tokenizer.StoredToken(0))
    }

    /** Property::name(): the text in storage slot 1. */
    function Name(): (name: seq<char>)
      reads tokenizer`tokens
      requires |tokenizer.tokens| == tokenizer.maxTokens
      ensures forall n :: Named(n) && 1 < tokenizer.maxTokens ==> name == n
    {
      tokenizer.StoredToken(1)
    }

    /** Value::asList(): a List value parsed from the tokenizer, or an
        invalid one when this is not a list. */
    method AsList() returns (list: Value)
      requires tokenizer.Valid()
      modifies tokenizer, tokenizer.buffer
      ensures fresh(list) && list.tokenizer == tokenizer && tokenizer.Valid()
      ensures valueType != List ==>
                list.valueType == Invalid && unchanged(tokenizer) && unchanged(tokenizer.buffer)
      ensures valueType == List && !old(tokenizer.aborted) ==>
                match Open(old(tokenizer.Pending()), '[')
                case None => list.valueType == Invalid && tokenizer.aborted
                case Some(q) => list.valueType == List && !tokenizer.aborted && tokenizer.Pending() == q
      ensures valueType == List && old(tokenizer.aborted) ==>
                list.valueType == Invalid && tokenizer.aborted && tokenizer.State() == old(tokenizer.State())
    {
      list := new Value(tokenizer);
      if valueType == List {
        list.ParseOpen('[', List);
      }
    }

    /** Value::asObject(), likewise. */
    method AsObject() returns (obj: Value)
      requires tokenizer.Valid()
      modifies tokenizer, tokenizer.buffer
      ensures fresh(obj) && obj.tokenizer == tokenizer && tokenizer.Valid()
      ensures valueType != Object ==>
                obj.valueType == Invalid && unchanged(tokenizer) && unchanged(tokenizer.buffer)
      ensures valueType == Object && !old(tokenizer.aborted) ==>
                match Open(old(tokenizer.Pending()), '{')
                case None => obj.valueType == Invalid && tokenizer.aborted
                case Some(q) => obj.valueType == Object && !tokenizer.aborted && tokenizer.Pending() == q
      ensures valueType == Object && old(tokenizer.aborted) ==>
                obj.valueType == Invalid && tokenizer.aborted && tokenizer.State() == old(tokenizer.State())
    {
      obj := new Value(tokenizer);
      if valueType == Object {
        obj.ParseOpen('{', Object);
      }
    }

    /** List::begin(): the iterator over a valid list, or the iterator that
        is already at the end. */
    method ListBegin() returns (it: ListIterator)
      requires tokenizer.Valid()
      modifies tokenizer, tokenizer.buffer
      ensures fresh(it) && fresh(it.current) && tokenizer.Valid()
      ensures it.tokenizer == tokenizer && it.current.tokenizer == tokenizer
      ensures valueType == Invalid ==>
                it.current.valueType == Invalid && unchanged(tokenizer) && unchanged(tokenizer.buffer)
      ensures valueType != Invalid && !old(tokenizer.aborted) ==>
                it.current.Took(ListFirst(old(tokenizer.Pending()), tokenizer.maxTokenLength))
      ensures valueType != Invalid && old(tokenizer.aborted) ==>
                it.current.valueType == Invalid && tokenizer.aborted && tokenizer.State() == old(tokenizer.State())
    {
      if valueType == Invalid {
        it := new ListIterator.AtEnd(tokenizer);
      } else {
        it := new ListIterator(tokenizer);
      }
    }

    /** Object::begin(), likewise. */
    method ObjectBegin() returns (it: ObjectIterator)
      requires tokenizer.Valid()
      modifies tokenizer, tokenizer.buffer
      ensures fresh(it) && fresh(it.current) && tokenizer.Valid()
      ensures it.tokenizer == tokenizer && it.current.tokenizer == tokenizer
      ensures valueType == Invalid ==>
                it.current.valueType == Invalid && unchanged(tokenizer) && unchanged(tokenizer.buffer)
      ensures valueType != Invalid && !old(tokenizer.aborted) ==>
                it.current.TookProperty(ObjectFirst(old(tokenizer.Pending()), tokenizer.maxTokenLength))
      ensures valueType != Invalid && old(tokenizer.aborted) ==>
                it.current.valueType == Invalid && tokenizer.aborted && tokenizer.State() == old(tokenizer.State())
    {
      if valueType == Invalid {
        it := new ObjectIterator.AtEnd(tokenizer);
      } else {
        it := new ObjectIterator(tokenizer);
      }
    }

    /** The tokenizer reached the end of reading `r`: aborted when it
        failed, and otherwise with the pending text that follows it. */
    ghost predicate Reached(r: Outcome<Json>)
      reads tokenizer, tokenizer.buffer
      requires tokenizer.Valid()
    {
      match r
      case Fail => tokenizer.aborted
      case Ok(_, rest) => !tokenizer.aborted && tokenizer.Pending() == rest
    }

    /** skip() on a value that shows `h`: the value is read to its end. */
    method SkipShown(ghost h: Head)
      requires tokenizer.Valid() && !tokenizer.aborted && Shows(h)
      modifies tokenizer, tokenizer.buffer
      ensures tokenizer.Valid() && Reached(ReadFrom(h, old(tokenizer.Pending()), tokenizer.maxTokenLength))
      decreases |tokenizer.Pending()|, 2
    {
      Skip();
    }

    /** Value::skip(): a list or an object is read to its end, every
        element skipped in turn; any other value is already complete. */
    method Skip()
      requires tokenizer.Valid()
      modifies tokenizer, tokenizer.buffer
      ensures tokenizer.Valid()
      ensures valueType != List && valueType != Object ==> unchanged(tokenizer) && unchanged(tokenizer.buffer)
      ensures valueType == List && !old(tokenizer.aborted) ==>
                Reached(ReadFrom(ListHead, old(tokenizer.Pending()), tokenizer.maxTokenLength))
      ensures valueType == Object && !old(tokenizer.aborted) ==>
                Reached(ReadFrom(ObjectHead, old(tokenizer.Pending()), tokenizer.maxTokenLength))
      ensures old(tokenizer.aborted) ==> tokenizer.aborted && tokenizer.State() == old(tokenizer.State())
      decreases |tokenizer.Pending()|, 1
    {
      if valueType == List {
        SkipList();
      } else if valueType == Object {
        SkipObject();
      }
    }

    /** The list case of Value::skip(): `for (auto& e : asList()) e.skip();` */
    method SkipList()
      requires tokenizer.Valid() && valueType == List
      modifies tokenizer, tokenizer.buffer
      ensures tokenizer.Valid()
      ensures !old(tokenizer.aborted) ==>
                Reached(ReadFrom(ListHead, old(tokenizer.Pending()), tokenizer.maxTokenLength))
      ensures old(tokenizer.aborted) ==> tokenizer.aborted && tokenizer.State() == old(tokenizer.State())
      decreases |tokenizer.Pending()|, 0
    {
      ghost var max := tokenizer.maxTokenLength;
      ghost var p0 := tokenizer.Pending();
      ghost var a0 := tokenizer.aborted;
      ghost var s0 := tokenizer.State();
      var list := AsList();
      var it := list.ListBegin();
      ghost var st: Step<Head> := if list.valueType == Invalid then Stopped else ListFirst(Open(p0, '[').value, max);
      ghost var items: seq<Json> := [];
      while it.current.valueType != Invalid
        invariant tokenizer.Valid() && it.current.tokenizer == tokenizer && fresh(it.current)
        invariant it.current.Took(st) && (st.Next? ==> StepSize(st) < |p0|)
        invariant a0 ==> st == Stopped && tokenizer.aborted && tokenizer.State() == s0
        invariant !a0 ==> ReadList(st, items, max) == ReadFrom(ListHead, p0, max)
        decreases StepSize(st) + (if st.Next? then 1 else 0)
      {
        ghost var r := ReadFrom(st.item, st.rest, max);
        ListNextReads(st, items, max);
        it.SkipAndAdvance(st);
        if r.Ok? {
          items := items + [r.value];
        }
        st := ListNext(st, max);
      }
    }

    /** The object case of Value::skip(): `for (auto& p : asObject()) p.skip();` */
    method SkipObject()
      requires tokenizer.Valid() && valueType == Object
      modifies tokenizer, tokenizer.buffer
      ensures tokenizer.Valid()
      ensures !old(tokenizer.aborted) ==>
                Reached(ReadFrom(ObjectHead, old(tokenizer.Pending()), tokenizer.maxTokenLength))
      ensures old(tokenizer.aborted) ==> tokenizer.aborted && tokenizer.State() == old(tokenizer.State())
      decreases |tokenizer.Pending()|, 0
    {
      ghost var max := tokenizer.maxTokenLength;
      ghost var p0 := tokenizer.Pending();
      ghost var a0 := tokenizer.aborted;
      ghost var s0 := tokenizer.State();
      var obj := AsObject();
      var it := obj.ObjectBegin();
      ghost var st: Step<(seq<char>, Head)> :=
        if obj.valueType == Invalid then Stopped else ObjectFirst(Open(p0, '{').value, max);
      ghost var props: seq<Property> := [];
      while it.current.valueType != Invalid
        invariant tokenizer.Valid() && it.current.tokenizer == tokenizer && fresh(it.current)
        invariant it.current.TookProperty(st) && (st.Next? ==> StepSize(st) < |p0|)
        invariant a0 ==> st == Stopped && tokenizer.aborted && tokenizer.State() == s0
        invariant !a0 ==> ReadObject(st, props, max) == ReadFrom(ObjectHead, p0, max)
        decreases StepSize(st) + (if st.Next? then 1 else 0)
      {
        ghost var r := ReadFrom(st.item.1, st.rest, max);
        ObjectNextReads(st, props, max);
        it.SkipAndAdvance(st);
        if r.Ok? {
          props := props + [Property(st.item.0, r.value)];
        }
        st := ObjectNext(st, max);
      }
    }
  }

  /** List::Iterator: the element value it parses each step into. */
  class ListIterator {
    const tokenizer: Tokenizer
    const current: Value

    /** Iterator(tokenizer), right after the opening bracket: `]` ends the
        list at once, and otherwise the first element is parsed. */
    constructor (tokenizer: Tokenizer)
      requires tokenizer.Valid()
      modifies tokenizer, tokenizer.buffer
      ensures this.tokenizer == tokenizer && fresh(current) && current.tokenizer == tokenizer
      ensures tokenizer.Valid()
      ensures !old(tokenizer.aborted) ==>
                current.Took(ListFirst(old(tokenizer.Pending()), tokenizer.maxTokenLength))
      ensures old(tokenizer.aborted) ==>
                current.valueType == Invalid && tokenizer.aborted && tokenizer.State() == old(tokenizer.State())
    {
      this.tokenizer := tokenizer;
      current := new Value(tokenizer);
      new;
      SkipSpace(tokenizer);
      assert NoNul("]");
      var c := PeekFor(tokenizer, "]");
      if c == ']' {
        Consume(tokenizer);
        SkipSpace(tokenizer);
        current.Invalidate();
      } else {
        current.Parse();
      }
    }

    /** Iterator(): the iterator that is at the end; it reads nothing. */
    constructor AtEnd(tokenizer: Tokenizer)
      ensures this.tokenizer == tokenizer && fresh(current) && current.tokenizer == tokenizer
      ensures current.valueType == Invalid
    {
      this.tokenizer := tokenizer;
      current := new Value(tokenizer);
    }

    /** operator!=(end): more elements follow while the current one is
        valid. */
    predicate HasNext()
      reads current
    {
      current.valueType != Invalid
    }

    /** operator++(): after a valid element, `,` and the next element, `]`
        and the end, or anything else and a failure; after the end,
        nothing. */
    method Advance()
      requires tokenizer.Valid() && current.tokenizer == tokenizer
      modifies current, tokenizer, tokenizer.buffer
      ensures tokenizer.Valid()
      ensures old(current.valueType) == Invalid ==>
                unchanged(current) && unchanged(tokenizer) && unchanged(tokenizer.buffer)
      ensures old(current.valueType) != Invalid && !old(tokenizer.aborted) ==>
                current.Took(ListFollowing(old(tokenizer.Pending()), tokenizer.maxTokenLength))
      ensures old(current.valueType) != Invalid && old(tokenizer.aborted) ==>
                current.valueType == Invalid && tokenizer.aborted && tokenizer.State() == old(tokenizer.State())
    {
      if current.valueType != Invalid {
        SkipSpace(tokenizer);
        assert NoNul(",]");
        var c := PeekFor(tokenizer, ",]");
        if c == ',' {
          Consume(tokenizer);
          current.Parse();
        } else if c == ']' {
          Consume(tokenizer);
          SkipSpace(tokenizer);
          current.Invalidate();
        } else {
          tokenizer.Abort();
          current.Invalidate();
        }
      }
    }

    /** One round of `for (auto& e : list) e.skip();`: the element the
        iterator step `st` took is read to its end, and the iterator moves
        on. */
    method SkipAndAdvance(ghost st: Step<Head>)
      requires tokenizer.Valid() && current.tokenizer == tokenizer
      requires st.Next? && current.Took(st)
      modifies current, tokenizer, tokenizer.buffer
      ensures tokenizer.Valid() && current.Took(ListNext(st, tokenizer.maxTokenLength))
      decreases |tokenizer.Pending()|, 3
    {
      current.SkipShown(st.item);
      Advance();
    }
  }

  /** Object::Iterator: the property it parses each step into. */
  class ObjectIterator {
    const tokenizer: Tokenizer
    const current: Value

    /** Iterator(tokenizer), right after the opening brace. */
    constructor (tokenizer: Tokenizer)
      requires tokenizer.Valid()
      modifies tokenizer, tokenizer.buffer
      ensures this.tokenizer == tokenizer && fresh(current) && current.tokenizer == tokenizer
      ensures tokenizer.Valid()
      ensures !old(tokenizer.aborted) ==>
                current.TookProperty(ObjectFirst(old(tokenizer.Pending()), tokenizer.maxTokenLength))
      ensures old(tokenizer.aborted) ==>
                current.valueType == Invalid && tokenizer.aborted && tokenizer.State() == old(tokenizer.State())
    {
      this.tokenizer := tokenizer;
      current := new Value(tokenizer);
      new;
      SkipSpace(tokenizer);
      assert NoNul("}");
      var c := PeekFor(tokenizer, "}");
      if c == '}' {
        Consume(tokenizer);
        SkipSpace(tokenizer);
        current.Invalidate();
      } else {
        current.ParseProperty();
      }
    }

    /** Iterator(): the iterator that is at the end. */
    constructor AtEnd(tokenizer: Tokenizer)
      ensures this.tokenizer == tokenizer && fresh(current) && current.tokenizer == tokenizer
      ensures current.valueType == Invalid
    {
      this.tokenizer := tokenizer;
      current := new Value(tokenizer);
    }

    /** operator!=(end) */
    predicate HasNext()
      reads current
    {
      current.valueType != Invalid
    }

    /** operator++(): after a valid property, `,` and the next property,
        `}` and the end, or anything else and a failure. */
    method Advance()
      requires tokenizer.Valid() && current.tokenizer == tokenizer
      modifies current, tokenizer, tokenizer.buffer
      ensures tokenizer.Valid()
      ensures old(current.valueType) == Invalid ==>
                unchanged(current) && unchanged(tokenizer) && unchanged(tokenizer.buffer)
      ensures old(current.valueType) != Invalid && !old(tokenizer.aborted) ==>
                current.TookProperty(ObjectFollowing(old(tokenizer.Pending()), tokenizer.maxTokenLength))
      ensures old(current.valueType) != Invalid && old(tokenizer.aborted) ==>
                current.valueType == Invalid && tokenizer.aborted && tokenizer.State() == old(tokenizer.State())
    {
      if current.valueType != Invalid {
        SkipSpace(tokenizer);
        assert NoNul(",}");
        var c := PeekFor(tokenizer, ",}");
        if c == ',' {
          Consume(tokenizer);
          current.ParseProperty();
        } else if c == '}' {
          Consume(tokenizer);
          SkipSpace(tokenizer);
          current.Invalidate();
        } else {
          tokenizer.Abort();
          current.Invalidate();
        }
      }
    }

    /** One round of `for (auto& p : object) p.skip();`: the property the
        iterator step `st` took is read to its end, and the iterator moves
        on. */
    method SkipAndAdvance(ghost st: Step<(seq<char>, Head)>)
      requires tokenizer.Valid() && current.tokenizer == tokenizer
      requires st.Next? && current.TookProperty(st)
      modifies current, tokenizer, tokenizer.buffer
      ensures tokenizer.Valid() && current.TookProperty(ObjectNext(st, tokenizer.maxTokenLength))
      decreases |tokenizer.Pending()|, 3
    {
      current.SkipShown(st.item.1);
      Advance();
    }
  }

  /** Reader: owns a storing tokenizer with two slots, slot 0 for string
      values and slot 1 for property names. */
  class Reader {
    const tokenizer: Tokenizer

    constructor (input: seq<char>, maxTokenLength: nat)
      requires NoNul(input) && maxTokenLength > 0
      ensures fresh(tokenizer) && fresh(tokenizer.buffer) && tokenizer.Valid()
      ensures tokenizer.Pending() == input && !tokenizer.aborted
      ensures tokenizer.maxTokenLength == maxTokenLength && tokenizer.maxTokens == 2
    {
      tokenizer := new Tokenizer(input, maxTokenLength, 2);
    }

    /** begin(): the root value, parsed. */
    method Begin() returns (root: Value)
      requires tokenizer.Valid()
      modifies tokenizer, tokenizer.buffer
      ensures fresh(root) && root.tokenizer == tokenizer && tokenizer.Valid()
      ensures !old(tokenizer.aborted) ==>
                root.Took(StepOf(ParseValue(old(tokenizer.Pending()), tokenizer.maxTokenLength)))
      ensures old(tokenizer.aborted) ==>
                root.valueType == Invalid && tokenizer.aborted && tokenizer.State() == old(tokenizer.State())
    {
      root := new Value(tokenizer);
      root.Parse();
    }

    /** end(): skips trailing whitespace; trailing text other than
        whitespace is not rejected. */
    method End()
      requires tokenizer.Valid()
      modifies tokenizer, tokenizer.buffer
      ensures tokenizer.Valid() && tokenizer.aborted == old(tokenizer.aborted)
      ensures !old(tokenizer.aborted) ==> tokenizer.Pending() == SkipWs(old(tokenizer.Pending()))
      ensures old(tokenizer.aborted) ==> tokenizer.State() == old(tokenizer.State())
    {
      SkipSpace(tokenizer);
    }

    /** failed(): the tokenizer has aborted. */
    predicate Failed()
      reads tokenizer`aborted
    {
      tokenizer.aborted
    }
  }

  /** makeReader(input): a reader with the default maximum token length. */
  method MakeReader(input: seq<char>) returns (reader: Reader)
    requires NoNul(input)
    ensures fresh(reader) && fresh(reader.tokenizer) && reader.tokenizer.Valid()
    ensures reader.tokenizer.Pending() == input && !reader.tokenizer.aborted
    ensures reader.tokenizer.maxTokenLength == DefaultMaxTokenLength && reader.tokenizer.maxTokens == 2
  {
    reader := new Reader(input, DefaultMaxTokenLength);
  }
}
