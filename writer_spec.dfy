/** The writer as a state machine over values: the stack of open
    containers, the mask of operations allowed next, the failure latch and
    the text written so far. The Writer class of module Writers is proved
    against Evaluate and End; the lemmas here say what Evaluate guarantees
    about whole call sequences. */
module WriterSpec {
  import opened Escapes
  import opened Documents
  import Toolbox

  /** The state of one open container; None stands for "no container". */
  datatype DataStructure = None | EmptyObject | Object | EmptyList | List

  // The operations, as bits of the mask.
  const OpNothing: bv8 := 0
  const OpInsertValue: bv8 := 1
  const OpInsertString: bv8 := 2
  const OpOpenList: bv8 := 4
  const OpOpenObject: bv8 := 8
  const OpStartProperty: bv8 := 16
  const OpClose: bv8 := 32

  /** Anything that starts a value. */
  const ValueOps: bv8 := OpInsertValue | OpInsertString | OpOpenList | OpOpenObject

  /** The number of containers that can be open at once. */
  const MaxStack: nat := 20

  /** The open containers, innermost last; the mask; the latch; and the
      text written so far. */
  datatype WState = WState(frames: seq<DataStructure>, allowed: bv8, failed: bool, output: seq<char>)

  /** A fresh writer: one root value or container is allowed. */
  const Initial: WState := WState([], ValueOps, false, [])

  /** What peek() returns: the innermost container, None when there is
      none. */
  function Top(frames: seq<DataStructure>): DataStructure {
    if frames == [] then None else frames[|frames| - 1]
  }

  /** replace(value): the innermost container becomes `value`; on an empty
      stack, `value` becomes the only one. */
  function Replaced(frames: seq<DataStructure>, value: DataStructure): (r: seq<DataStructure>)
    ensures |r| == (if frames == [] then 1 else |frames|) && Top(r) == value
  {
    if frames == [] then [value] else frames[..|frames| - 1] + [value]
  }

  /** The stack after pop(): without the innermost container. */
  function Popped(frames: seq<DataStructure>): (r: seq<DataStructure>)
    ensures |r| == if frames == [] then 0 else |frames| - 1
  {
    if frames == [] then [] else frames[..|frames| - 1]
  }

  /** isAllowed(op) */
  predicate Allowed(st: WState, op: bv8) {
    st.allowed & op == op
  }

  /** The mask once a value inside `top` is complete: the next property or
      the close in an object, the next element or the close in a list,
      nothing at the top level. */
  function MaskAfter(top: DataStructure): bv8 {
    match top
    case EmptyObject => OpStartProperty | OpClose
    case Object => OpStartProperty | OpClose
    case EmptyList => ValueOps | OpClose
    case List => ValueOps | OpClose
    case None => OpNothing
  }

  /** The comma written before an element of a list that already has one. */
  function Separator(top: DataStructure): seq<char> {
    if top == List then "," else ""
  }

  /** INSERT_VALUE and INSERT_STRING once allowed: the separator, the text,
      the innermost container marked as holding something, and the mask
      for what may follow. */
  function Inserted(st: WState, text: seq<char>): WState {
    var top := Top(st.frames);
    var frames := if top == EmptyObject then Replaced(st.frames, Object)
                  else if top == EmptyList then Replaced(st.frames, List)
                  else st.frames;
    WState(frames, MaskAfter(top), false, st.output + Separator(top) + text)
  }

  /** OPEN_LIST and OPEN_OBJECT once allowed: the enclosing list is marked
      as holding something, the separator and the bracket are written, and
      the new container is pushed; a full stack fails the writer. */
  function Opened(st: WState, frame: DataStructure, bracket: seq<char>, mask: bv8): (r: WState)
    ensures !r.failed <==> |st.frames| < MaxStack
    ensures !r.failed ==> |r.frames| == |st.frames| + 1 && Top(r.frames) == frame
  {
    var top := Top(st.frames);
    var frames := if top == EmptyList then Replaced(st.frames, List) else st.frames;
    var output := st.output + Separator(top) + bracket;
    if |frames| < MaxStack then WState(frames + [frame], mask, false, output)
    else WState(frames, mask, true, output)
  }

  /** START_PROPERTY once allowed: inside an object, the separator, the
      quoted name and the colon; anywhere else the writer fails and writes
      nothing. */
  function PropertyStarted(st: WState, name: seq<char>): WState {
    var top := Top(st.frames);
    if top == EmptyObject then
      WState(Replaced(st.frames, Object), ValueOps, false, st.output + Quoted(name) + ":")
    else if top == Object then
      WState(st.frames, ValueOps, false, st.output + "," + Quoted(name) + ":")
    else st.(allowed := ValueOps, failed := true)
  }

  /** CLOSE once allowed: the innermost container is popped and its closing
      bracket written, and the mask follows the container now innermost;
      with no container open the writer fails. */
  function Closed(st: WState): (r: WState)
    ensures r.failed <==> Top(st.frames) == None
    ensures !r.failed ==> |r.frames| == |st.frames| - 1
  {
    var frames := Popped(st.frames);
    match Top(st.frames)
    case EmptyObject | Object => WState(frames, MaskAfter(Top(frames)), false, st.output + "}")
    case EmptyList | List => WState(frames, MaskAfter(Top(frames)), false, st.output + "]")
    case None => st.(failed := true)
  }

  /** evaluate(op, value): a failed writer, or an operation the mask does
      not allow, only sets the latch. */
  function Evaluate(st: WState, op: bv8, value: seq<char>): WState {
    if st.failed || !Allowed(st, op) then st.(failed := true)
    else if op == OpInsertValue then Inserted(st, value)
    else if op == OpInsertString then Inserted(st, Quoted(value))
    else if op == OpOpenList then Opened(st, EmptyList, "[", ValueOps | OpClose)
    else if op == OpOpenObject then Opened(st, EmptyObject, "{", OpStartProperty | OpClose)
    else if op == OpStartProperty then PropertyStarted(st, value)
    else if op == OpClose then Closed(st)
    else st.(failed := true)
  }

  /** end(): closes containers until none is open or the writer fails. */
  function End(st: WState): (r: WState)
    ensures r.failed || Top(r.frames) == None
    decreases |st.frames| + (if st.failed then 0 else 1)
  {
    if st.failed || Top(st.frames) == None then st
    else
      var next := Evaluate(st, OpClose, "");
      assert next.failed || |next.frames| < |st.frames|;
      End(next)
  }

  // ---------------------------------------------------------------------
  // The public operations.

  /** int32_t */
  type Int32 = n: int | -0x8000_0000 <= n < 0x8000_0000

  /** null(): the literal null where a value may go. */
  function Null(st: WState): (r: WState)
    ensures !st.failed && Allowed(st, OpInsertValue) ==> r == Inserted(st, Render(JNull))
    ensures st.failed || !Allowed(st, OpInsertValue) ==> r == st.(failed := true)
  {
    Evaluate(st, OpInsertValue, "null")
  }

  /** boolean(value): true or false, and null for an absent value. */
  function Boolean(st: WState, value: Toolbox.Maybe<bool>): (r: WState)
    ensures !st.failed && Allowed(st, OpInsertValue)
            ==> r == Inserted(st, if value.Some? then Render(JBool(value.value)) else Render(JNull))
    ensures st.failed || !Allowed(st, OpInsertValue) ==> r == st.(failed := true)
  {
    match value
    case Some(b) => Evaluate(st, OpInsertValue, if b then "true" else "false")
    case None => Null(st)
  }

  /** number(int32_t): the number formatted with "%i", and null for an
      absent value. */
  function NumberInt(st: WState, value: Toolbox.Maybe<Int32>): (r: WState)
    ensures !st.failed && Allowed(st, OpInsertValue)
            ==> r == Inserted(st, if value.Some? then Toolbox.FormatInt(value.value) else Render(JNull))
    ensures st.failed || !Allowed(st, OpInsertValue) ==> r == st.(failed := true)
  {
    match value
    case Some(n) => Evaluate(st, OpInsertValue, Toolbox.FormatInt(n))
    case None => Null(st)
  }

  /** number(Decimal): the decimal's text, and null for an absent value. */
  function NumberDecimal(st: WState, value: Toolbox.Maybe<Toolbox.Decimal>): (r: WState)
    ensures !st.failed && Allowed(st, OpInsertValue)
            ==> r == Inserted(st, if value.Some? then Render(JNumber(value.value)) else Render(JNull))
    ensures st.failed || !Allowed(st, OpInsertValue) ==> r == st.(failed := true)
  {
    match value
    case Some(d) => Evaluate(st, OpInsertValue, Toolbox.ToString(d))
    case None => Null(st)
  }

  /** string(value): the string quoted and escaped, and null for an absent
      value. An absent string needs INSERT_VALUE to be allowed, a present
      one INSERT_STRING. */
  function String(st: WState, value: Toolbox.Maybe<seq<char>>): (r: WState)
    ensures value.Some? && !st.failed && Allowed(st, OpInsertString)
            ==> r == Inserted(st, Render(JString(value.value)))
    ensures value.None? && !st.failed && Allowed(st, OpInsertValue) ==> r == Inserted(st, Render(JNull))
    ensures st.failed || !Allowed(st, if value.Some? then OpInsertString else OpInsertValue)
            ==> r == st.(failed := true)
  {
    match value
    case Some(text) => Evaluate(st, OpInsertString, text)
    case None => Null(st)
  }

  /** The "%i" text of an int32_t needs at most 11 characters, so the
      12-character buffer number() formats into, with its terminator, never
      truncates it; and the text reads back as the same integer. */
  lemma {:induction false} Int32TextFits(n: Int32)
    ensures |Toolbox.FormatInt(n)| <= 11
    ensures var r := Toolbox.FromString(Toolbox.FormatInt(n));
            r.Some? && Toolbox.IsInteger(r.value) && Toolbox.Integer(r.value) == n
  {
    var m: int := n;
    assert Toolbox.Pow10(10) == 10_000_000_000;
    Toolbox.NatDigitsLength(if m < 0 then -m else m, 10);
    Toolbox.FormatIntReads(n);
  }

  // ---------------------------------------------------------------------
  // Call sequences.

  /** One call of the writer's evaluate: an operation and its text. */
  datatype Call = Call(op: bv8, value: seq<char>)

  /** The state after `calls`, made in order. */
  function Run(st: WState, calls: seq<Call>): WState
    decreases |calls|
  {
    if calls == [] then st else Run(Evaluate(st, calls[0].op, calls[0].value), calls[1..])
  }

  /** The latch is one-way: once failed, a writer stays failed and writes
      nothing more, whatever is called. */
  lemma {:induction false} FailureLatches(st: WState, calls: seq<Call>)
    requires st.failed
    ensures Run(st, calls) == st
    decreases |calls|
  {
    if calls != [] {
      FailureLatches(Evaluate(st, calls[0].op, calls[0].value), calls[1..]);
    }
  }

  /** With nothing allowed, every operation fails and writes nothing. */
  lemma {:induction false} NothingAllowedFails(st: WState, op: bv8, value: seq<char>)
    requires st.allowed == OpNothing
    ensures Evaluate(st, op, value) == st.(failed := true)
  {
  }

  /** The states a writer that has not failed can be in: at most MaxStack
      containers, every container but the innermost holding something, and
      a mask that matches the innermost container: a root value at the top
      level while nothing is written (or nothing at all), an element or the
      close in a list, a property or the close in an object, and the
      property's value after a name. */
  predicate Shaped(st: WState) {
    && |st.frames| <= MaxStack && (st.frames != [] ==> Top(st.frames) != None)
    && (forall i :: 0 <= i < |st.frames| - 1 ==> st.frames[i] == Object || st.frames[i] == List)
    && match Top(st.frames)
       case None => st.allowed == ValueOps || st.allowed == OpNothing
       case EmptyList => st.allowed == ValueOps | OpClose
       case List => st.allowed == ValueOps | OpClose
       case EmptyObject => st.allowed == OpStartProperty | OpClose
       case Object => st.allowed == OpStartProperty | OpClose || st.allowed == ValueOps
  }

  lemma InitialShaped()
    ensures Shaped(Initial) && !Initial.failed
  {
  }

  /** Closing pops one container, and the one now innermost holds
      something. */
  lemma {:induction false} PoppedShaped(frames: seq<DataStructure>)
    requires frames != [] && forall i :: 0 <= i < |frames| - 1 ==> frames[i] == Object || frames[i] == List
    ensures var r := Popped(frames);
            && (forall i :: 0 <= i < |r| - 1 ==> r[i] == Object || r[i] == List)
            && (r == [] || Top(r) == Object || Top(r) == List)
  {
    var r := Popped(frames);
    assert forall i :: 0 <= i < |r| ==> r[i] == frames[i];
  }

  /** Replacing the innermost container keeps the outer ones. */
  lemma {:induction false} ReplacedShaped(frames: seq<DataStructure>, value: DataStructure)
    requires frames != [] && forall i :: 0 <= i < |frames| - 1 ==> frames[i] == Object || frames[i] == List
    ensures var r := Replaced(frames, value);
            && (forall i :: 0 <= i < |r| - 1 ==> r[i] == Object || r[i] == List)
            && Top(r) == value
  {
    var r := Replaced(frames, value);
    assert forall i :: 0 <= i < |r| - 1 ==> r[i] == frames[i];
  }

  /** Pushing onto a stack whose innermost container holds something. */
  lemma {:induction false} PushedShaped(frames: seq<DataStructure>, value: DataStructure)
    requires forall i :: 0 <= i < |frames| - 1 ==> frames[i] == Object || frames[i] == List
    requires frames == [] || Top(frames) == Object || Top(frames) == List
    ensures var r := frames + [value];
            && (forall i :: 0 <= i < |r| - 1 ==> r[i] == Object || r[i] == List)
            && Top(r) == value
  {
  }

  /** Every operation keeps a writer that has not failed in one of those
      states, or fails it. */
  lemma {:induction false} EvaluateShaped(st: WState, op: bv8, value: seq<char>)
    requires Shaped(st)
    ensures var r := Evaluate(st, op, value); r.failed || Shaped(r)
  {
    var r := Evaluate(st, op, value);
    if !st.failed && Allowed(st, op) {
      var top := Top(st.frames);
      if op == OpInsertValue || op == OpInsertString {
        if top != None {
          ReplacedShaped(st.frames, if top == EmptyObject || top == Object then Object else List);
        }
      } else if op == OpOpenList || op == OpOpenObject {
        var frames := if top == EmptyList then Replaced(st.frames, List) else st.frames;
        if top == EmptyList {
          ReplacedShaped(st.frames, List);
        }
        PushedShaped(frames, if op == OpOpenList then EmptyList else EmptyObject);
      } else if op == OpStartProperty {
        if top == EmptyObject {
          ReplacedShaped(st.frames, Object);
        }
      } else if op == OpClose {
        if top != None {
          PoppedShaped(st.frames);
        }
      }
    }
  }

  /** A property outside an object fails, whatever the mask. */
  lemma {:induction false} PropertyOutsideObjectFails(st: WState, name: seq<char>)
    requires Shaped(st) && Top(st.frames) != EmptyObject && Top(st.frames) != Object
    ensures Evaluate(st, OpStartProperty, name).failed
  {
  }

  /** In an object awaiting a property, a value fails. */
  lemma {:induction false} ValueWithoutPropertyFails(st: WState, op: bv8, value: seq<char>)
    requires Shaped(st) && Top(st.frames) == EmptyObject
    requires op == OpInsertValue || op == OpInsertString || op == OpOpenList || op == OpOpenObject
    ensures Evaluate(st, op, value).failed
  {
  }

  /** After a property name only its value may follow: closing fails, and
      so does a second name. */
  lemma {:induction false} PropertyNeedsValue(st: WState, name: seq<char>, next: seq<char>)
    ensures var r := Evaluate(st, OpStartProperty, name);
            && Evaluate(r, OpClose, "").failed
            && Evaluate(r, OpStartProperty, next).failed
  {
  }

  /** At the top level a writer takes one value: after a scalar, or after
      the root container is closed, nothing more is allowed. */
  lemma {:induction false} SingleRoot(st: WState, op: bv8, value: seq<char>)
    requires !st.failed && Allowed(st, op) && (op == OpInsertValue || op == OpInsertString || op == OpClose)
    requires Shaped(st) && |st.frames| <= 1
    requires op == OpClose ==> st.frames != []
    requires op != OpClose ==> st.frames == []
    ensures Evaluate(st, op, value).allowed == OpNothing
  {
  }

  /** With MaxStack containers open, opening another fails. */
  lemma {:induction false} NestingBounded(st: WState, op: bv8)
    requires Shaped(st) && |st.frames| == MaxStack && (op == OpOpenList || op == OpOpenObject)
    ensures Evaluate(st, op, "").failed
  {
  }

  // ---------------------------------------------------------------------
  // Writing a whole document.

  /** `v` nests no deeper than `room` containers. */
  predicate Fits(v: Json, room: nat)
    decreases v
  {
    match v
    case JList(items) => room > 0 && forall i :: 0 <= i < |items| ==> Fits(items[i], room - 1)
    case JObject(props) => room > 0 && forall i :: 0 <= i < |props| ==> Fits(props[i].value, room - 1)
    case _ => true
  }

  /** The calls that write `v`: null(), boolean(b), number(d) or
      string(s) for a scalar; openList(), the elements and close() for a
      list; openObject(), property(name) and the value for each property,
      and close() for an object. */
  function Calls(v: Json): seq<Call>
    decreases v, 1
  {
    match v
    case JNull => [Call(OpInsertValue, "null")]
    case JBool(b) => [Call(OpInsertValue, if b then "true" else "false")]
    case JNumber(d) => [Call(OpInsertValue, Toolbox.ToString(d))]
    case JString(s) => [Call(OpInsertString, s)]
    case JList(items) => [Call(OpOpenList, "")] + ItemCalls(v, items) + [Call(OpClose, "")]
    case JObject(props) => [Call(OpOpenObject, "")] + PropertyCalls(v, props) + [Call(OpClose, "")]
  }

  /** The calls that write the elements of the list `v`, in order. */
  function ItemCalls(ghost v: Json, items: seq<Json>): seq<Call>
    requires forall i :: 0 <= i < |items| ==> items[i] < v
    decreases v, 0, |items|
  {
    if items == [] then [] else ItemCalls(v, items[..|items| - 1]) + Calls(items[|items| - 1])
  }

  /** The calls that write the properties of the object `v`, in order. */
  function PropertyCalls(ghost v: Json, props: seq<Property>): seq<Call>
    requires forall i :: 0 <= i < |props| ==> props[i].value < v
    decreases v, 0, |props|
  {
    if props == [] then [] else PropertyCalls(v, props[..|props| - 1]) + PropertyCall(props[|props| - 1])
  }

  /** The calls that write one property: its name, then its value. */
  function PropertyCall(p: Property): seq<Call>
    decreases p.value, 2
  {
    [Call(OpStartProperty, p.name)] + Calls(p.value)
  }

  /** Running two call sequences in turn is running them one after the
      other. */
  lemma {:induction false} RunConcat(st: WState, a: seq<Call>, b: seq<Call>)
    ensures Run(st, a + b) == Run(Run(st, a), b)
    decreases |a|
  {
    if a == [] {
      assert a + b == b;
    } else {
      assert (a + b)[0] == a[0] && (a + b)[1..] == a[1..] + b;
      RunConcat(Evaluate(st, a[0].op, a[0].value), a[1..], b);
    }
  }

  /** Marking a container as holding something twice is marking it once. */
  lemma {:induction false} ReplacedTwice(frames: seq<DataStructure>, a: DataStructure, b: DataStructure)
    ensures Replaced(Replaced(frames, a), b) == Replaced(frames, b)
  {
    if frames != [] {
      assert Replaced(frames, a)[..|frames| - 1] == frames[..|frames| - 1];
    }
  }

  /** Opening a container where a value may go, with room on the stack:
      the enclosing list is marked, the separator and bracket written and
      the new, empty container pushed. */
  lemma {:induction false} OpenStep(st: WState, op: bv8)
    requires op == OpOpenList || op == OpOpenObject
    requires !st.failed && st.allowed & ValueOps == ValueOps && |st.frames| < MaxStack
    ensures var top := Top(st.frames);
            var r := Evaluate(st, op, "");
            && r.frames == (if top == EmptyList then Replaced(st.frames, List) else st.frames)
                           + [if op == OpOpenList then EmptyList else EmptyObject]
            && r.allowed == (if op == OpOpenList then ValueOps | OpClose else OpStartProperty | OpClose)
            && !r.failed
            && r.output == st.output + Separator(top) + (if op == OpOpenList then "[" else "{")
  {
    assert Allowed(st, op);
  }

  /** Closing the innermost container, with `parent` the stack around it. */
  lemma {:induction false} CloseStep(u: WState, parent: seq<DataStructure>, k: DataStructure)
    requires !u.failed && Allowed(u, OpClose) && u.frames == parent + [k] && k != None
    ensures Evaluate(u, OpClose, "")
            == WState(parent, MaskAfter(Top(parent)), false,
                      u.output + (if k == EmptyObject || k == Object then "}" else "]"))
  {
    assert Popped(u.frames) == parent;
  }

  /** Wherever a value may go (not in an object awaiting a property name),
      writing `v` has the effect of inserting its rendering as one value:
      the writer emits exactly Render(v), with the separator the position
      needs, and ends in the state a scalar would leave. */
  lemma {:induction false} WriteInserts(st: WState, v: Json)
    requires !st.failed && st.allowed & ValueOps == ValueOps && Top(st.frames) != EmptyObject
    requires |st.frames| <= MaxStack && Fits(v, MaxStack - |st.frames|)
    ensures Run(st, Calls(v)) == Inserted(st, Render(v))
    decreases v, 2
  {
    match v
    case JList(_) => WriteListInserts(st, v);
    case JObject(_) => WriteObjectInserts(st, v);
    case _ =>
      assert Allowed(st, OpInsertValue) && Allowed(st, OpInsertString);
  }

  /** Appending a bracketed piece of text. A proof helper: the regrouping
      is stated on its own so that the writer lemmas stay cheap. */
  lemma Bracketed(x: seq<char>, open: seq<char>, inner: seq<char>, close: seq<char>)
    ensures x + open + inner + close == x + (open + inner + close)
  {
  }

  /** Appending a property: its separator, name, colon and value. A proof
      helper: the regrouping is stated on its own so that the writer lemmas
      stay cheap. */
  lemma AppendedProperty(x: seq<char>, rest: seq<char>, sep: seq<char>, name: seq<char>, value: seq<char>)
    ensures x + (rest + sep + name + ":" + value) == x + rest + sep + name + ":" + "" + value
  {
  }

  /** Starting a property in an open object: the separator, the quoted
      name and the colon are written, the object is marked as holding
      something, and only a value may follow. */
  lemma {:induction false} NameStep(w: WState, name: seq<char>)
    requires !w.failed && w.allowed == OpStartProperty | OpClose
    requires Top(w.frames) == EmptyObject || Top(w.frames) == Object
    ensures var r := Evaluate(w, OpStartProperty, name);
            && r.frames == Replaced(w.frames, Object) && r.allowed == ValueOps && !r.failed
            && r.output == w.output + (if Top(w.frames) == Object then "," else "") + Quoted(name) + ":"
  {
    assert Allowed(w, OpStartProperty);
    if Top(w.frames) == Object {
      assert Replaced(w.frames, Object) == w.frames;
    }
  }

  /** A single call is one evaluate(). */
  lemma RunOne(st: WState, c: Call)
    ensures Run(st, [c]) == Evaluate(st, c.op, c.value)
  {
  }

  /** WriteInserts for a list. */
  lemma {:induction false} WriteListInserts(st: WState, v: Json)
    requires v.JList?
    requires !st.failed && st.allowed & ValueOps == ValueOps && Top(st.frames) != EmptyObject
    requires |st.frames| <= MaxStack && Fits(v, MaxStack - |st.frames|)
    ensures Run(st, Calls(v)) == Inserted(st, Render(v))
    decreases v, 1
  {
    var items := v.items;
    var top := Top(st.frames);
    var frames := if top == EmptyList then Replaced(st.frames, List) else st.frames;
    var open, close := Call(OpOpenList, ""), Call(OpClose, "");
    var inner := ItemCalls(v, items);
    RunConcat(st, [open] + inner, [close]);
    RunConcat(st, [open], inner);
    RunOne(st, open);
    var u := Evaluate(st, OpOpenList, "");
    OpenStep(st, OpOpenList);
    WriteItemsRender(u, v, items);
    var w := Run(u, inner);
    var k := if items == [] then EmptyList else List;
    assert w.frames == frames + [k];
    RunOne(w, close);
    CloseStep(w, frames, k);
    Bracketed(st.output + Separator(top), "[", RenderItems(v, items), "]");
  }

  /** WriteInserts for an object. */
  lemma {:induction false} WriteObjectInserts(st: WState, v: Json)
    requires v.JObject?
    requires !st.failed && st.allowed & ValueOps == ValueOps && Top(st.frames) != EmptyObject
    requires |st.frames| <= MaxStack && Fits(v, MaxStack - |st.frames|)
    ensures Run(st, Calls(v)) == Inserted(st, Render(v))
    decreases v, 1
  {
    var props := v.props;
    var top := Top(st.frames);
    var frames := if top == EmptyList then Replaced(st.frames, List) else st.frames;
    var open, close := Call(OpOpenObject, ""), Call(OpClose, "");
    var inner := PropertyCalls(v, props);
    RunConcat(st, [open] + inner, [close]);
    RunConcat(st, [open], inner);
    RunOne(st, open);
    var u := Evaluate(st, OpOpenObject, "");
    OpenStep(st, OpOpenObject);
    WritePropsRender(u, v, props);
    var w := Run(u, inner);
    var k := if props == [] then EmptyObject else Object;
    assert w.frames == frames + [k];
    RunOne(w, close);
    CloseStep(w, frames, k);
    Bracketed(st.output + Separator(top), "{", RenderProps(v, props), "}");
  }

  /** From an open list, writing its elements emits them separated by
      commas and leaves the list open, holding something once an element
      was written. */
  lemma {:induction false} WriteItemsRender(u: WState, v: Json, items: seq<Json>)
    requires forall i :: 0 <= i < |items| ==> items[i] < v
    requires !u.failed && u.allowed == ValueOps | OpClose && Top(u.frames) == EmptyList
    requires |u.frames| <= MaxStack && forall i :: 0 <= i < |items| ==> Fits(items[i], MaxStack - |u.frames|)
    ensures var r := Run(u, ItemCalls(v, items));
            && r.frames == (if items == [] then u.frames else Replaced(u.frames, List))
            && r.allowed == ValueOps | OpClose && !r.failed
            && r.output == u.output + RenderItems(v, items)
    decreases v, 0, |items|
  {
    if items != [] {
      var prefix := items[..|items| - 1];
      var last := items[|items| - 1];
      WriteItemsRender(u, v, prefix);
      RunConcat(u, ItemCalls(v, prefix), Calls(last));
      var w := Run(u, ItemCalls(v, prefix));
      if prefix != [] {
        ReplacedTwice(u.frames, List, List);
      }
      WriteInserts(w, last);
      Bracketed(u.output, RenderItems(v, prefix), Separator(Top(w.frames)), Render(last));
    }
  }

  /** From an open object, writing its properties emits each name, a colon
      and the value, separated by commas, and leaves the object open,
      holding something once a property was written. */
  lemma {:induction false} WritePropsRender(u: WState, v: Json, props: seq<Property>)
    requires forall i :: 0 <= i < |props| ==> props[i].value < v
    requires !u.failed && u.allowed == OpStartProperty | OpClose && Top(u.frames) == EmptyObject
    requires |u.frames| <= MaxStack && forall i :: 0 <= i < |props| ==> Fits(props[i].value, MaxStack - |u.frames|)
    ensures var r := Run(u, PropertyCalls(v, props));
            && r.frames == (if props == [] then u.frames else Replaced(u.frames, Object))
            && r.allowed == OpStartProperty | OpClose && !r.failed
            && r.output == u.output + RenderProps(v, props)
    decreases v, 0, |props|
  {
    if props != [] {
      var prefix := props[..|props| - 1];
      var last := props[|props| - 1];
      WritePropsRender(u, v, prefix);
      RunConcat(u, PropertyCalls(v, prefix), PropertyCall(last));
      var w := Run(u, PropertyCalls(v, prefix));
      WritePropertyStep(w, last);
      ReplacedTwice(u.frames, Object, Object);
      AppendedProperty(u.output, RenderProps(v, prefix), if prefix != [] then "," else "", Quoted(last.name), Render(last.value));
    }
  }

  /** Writing one property of an open object: its name, a colon and its
      value, after a comma if the object already holds something. */
  lemma {:induction false} WritePropertyStep(w: WState, p: Property)
    requires !w.failed && w.allowed == OpStartProperty | OpClose
    requires Top(w.frames) == EmptyObject || Top(w.frames) == Object
    requires |w.frames| <= MaxStack && Fits(p.value, MaxStack - |w.frames|)
    ensures var r := Run(w, PropertyCall(p));
            && r.frames == Replaced(w.frames, Object) && r.allowed == OpStartProperty | OpClose && !r.failed
            && r.output == w.output + (if Top(w.frames) == Object then "," else "") + Quoted(p.name) + ":" + "" + Render(p.value)
    decreases p.value, 3
  {
    var name := Call(OpStartProperty, p.name);
    RunConcat(w, [name], Calls(p.value));
    RunOne(w, name);
    NameStep(w, p.name);
    WriteInserts(Evaluate(w, OpStartProperty, p.name), p.value);
  }

  /** A fresh writer given any document that nests at most MaxStack deep
      emits exactly its rendering and then accepts nothing more; end()
      adds nothing. */
  lemma {:induction false} WriteDocument(v: Json)
    requires Fits(v, MaxStack)
    ensures Run(Initial, Calls(v)) == WState([], OpNothing, false, Render(v))
    ensures End(Run(Initial, Calls(v))) == Run(Initial, Calls(v))
  {
    WriteInserts(Initial, v);
  }

  /** The closing brackets of the open containers, innermost first. */
  function Closers(frames: seq<DataStructure>): seq<char>
    decreases |frames|
  {
    if frames == [] then ""
    else (if Top(frames) == EmptyObject || Top(frames) == Object then "}" else "]") + Closers(Popped(frames))
  }

  /** end() on a writer whose innermost container may be closed closes
      every open container, innermost first, and leaves nothing allowed;
      with none open it changes nothing. */
  lemma {:induction false} EndClosesAll(st: WState)
    requires Shaped(st) && !st.failed && (st.frames == [] || Allowed(st, OpClose))
    ensures End(st) == WState([], if st.frames == [] then st.allowed else OpNothing, false, st.output + Closers(st.frames))
    decreases |st.frames|
  {
    if st.frames != [] {
      EndStep(st);
      EndClosesAll(Evaluate(st, OpClose, ""));
    }
  }

  /** One round of end(): the innermost container is closed, and what is
      left is again a writer that may close its innermost container, if it
      has one. */
  lemma {:induction false} EndStep(st: WState)
    requires Shaped(st) && !st.failed && st.frames != [] && Allowed(st, OpClose)
    ensures var next := Evaluate(st, OpClose, "");
            && Shaped(next) && !next.failed && next.frames == Popped(st.frames)
            && (next.frames == [] ==> next.allowed == OpNothing)
            && (next.frames != [] ==> Allowed(next, OpClose))
            && st.output + Closers(st.frames) == next.output + Closers(next.frames)
  {
    var parent := Popped(st.frames);
    var k := Top(st.frames);
    assert st.frames == parent + [k];
    CloseStep(st, parent, k);
    PoppedShaped(st.frames);
    EvaluateShaped(st, OpClose, "");
    ClosersStep(st.output, st.frames);
  }

  /** Writing the innermost closer first leaves the others to write. */
  lemma {:induction false} ClosersStep(out: seq<char>, frames: seq<DataStructure>)
    requires frames != []
    ensures out + Closers(frames)
            == out + (if Top(frames) == EmptyObject || Top(frames) == Object then "}" else "]") + Closers(Popped(frames))
  {
  }

  /** end() right after a property name fails and writes nothing. */
  lemma {:induction false} EndAfterNameFails(st: WState, name: seq<char>)
    requires !Evaluate(st, OpStartProperty, name).failed
    ensures var r := Evaluate(st, OpStartProperty, name);
            End(r) == r.(failed := true)
  {
  }
}
