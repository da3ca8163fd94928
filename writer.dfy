/** The Writer class: a stack of container states in a fixed array of
    MaxStack slots with the index of the innermost one, the mask of allowed
    operations, the failure latch, and the output written so far. Every
    operation is proved to move the writer exactly as WriterSpec.Evaluate
    moves its abstract state, where the abstract stack is the array up to
    and including the index, or nothing when the only slot holds None. The
    push bound and the pop of the last container are the corrected ones. */
module Writers {
  import opened Escapes
  import opened Documents
  import opened WriterSpec
  import Toolbox

  class Writer {
    var output: seq<char>
    var failed: bool
    const stack: array<DataStructure>
    var stackIndex: nat
    var allowed: bv8

    /** The slots are MaxStack, the index is one of them, and once a
        container is open no slot up to the index holds None. */
    predicate Valid()
      reads this, stack
    {
      && stack.Length == MaxStack && stackIndex < MaxStack
      && (stackIndex > 0 ==> forall i :: 0 <= i <= stackIndex ==> stack[i] != None)
    }

    /** The open containers, innermost last. */
    function Frames(): seq<DataStructure>
      reads this, stack
      requires stackIndex < stack.Length
    {
      if stackIndex == 0 && stack[0] == None then [] else stack[..stackIndex + 1]
    }

    function State(): WState
      reads this, stack
      requires stackIndex < stack.Length
    {
      WState(Frames(), allowed, failed, output)
    }

    /** A fresh writer over an empty output. */
    constructor ()
      ensures Valid() && State() == Initial && fresh(stack)
    {
      output := [];
      failed := false;
      stack := new DataStructure[MaxStack](_ => None);
      stackIndex := 0;
      allowed := ValueOps;
    }

    /** isAllowed(op) */
    predicate IsAllowed(op: bv8)
      reads this
    {
      allowed & op == op
    }

    /** isStackEmpty() */
    predicate IsStackEmpty()
      reads this, stack
      requires stackIndex < stack.Length
    {
      stackIndex == 0 && stack[stackIndex] == None
    }

    /** isStackAvailable(), corrected: another container fits when none is
        open or the next slot exists. */
    function IsStackAvailable(): (r: bool)
      reads this, stack
      requires Valid()
      ensures r <==> |Frames()| < MaxStack
    {
      IsStackEmpty() || stackIndex + 1 < MaxStack
    }

    /** peek() */
    function Peek(): (r: DataStructure)
      reads this, stack
      requires Valid()
      ensures r == Top(Frames())
    {
      stack[stackIndex]
    }

    /** push(value): the container is pushed when there is room, and false
        is returned otherwise. */
    method Push(value: DataStructure) returns (ok: bool)
      requires Valid() && value != None
      modifies this`stackIndex, stack
      ensures Valid() && ok == (|old(Frames())| < MaxStack)
      ensures Frames() == if ok then old(Frames()) + [value] else old(Frames())
    {
      if !IsStackAvailable() {
        return false;
      }
      if !IsStackEmpty() {
        stackIndex := stackIndex + 1;
      }
      stack[stackIndex] := value;
      ok := true;
    }

    /** pop(), corrected: the innermost container is removed and returned,
        None when there is none; popping the last one clears its slot
        instead of moving the index below the array. */
    method Pop() returns (r: DataStructure)
      requires Valid()
      modifies this`stackIndex, stack
      ensures Valid() && r == Top(old(Frames())) && Frames() == Popped(old(Frames()))
    {
      if IsStackEmpty() {
        return None;
      }
      if stackIndex == 0 {
        r := stack[0];
        stack[0] := None;
        return;
      }
      stackIndex := stackIndex - 1;
      r := stack[stackIndex + 1];
      assert Frames() == old(Frames())[..stackIndex + 1];
    }

    /** replace(value) */
    method Replace(value: DataStructure)
      requires Valid() && value != None
      modifies stack
      ensures Valid() && Frames() == Replaced(old(Frames()), value)
    {
      stack[stackIndex] := value;
      if old(Frames()) != [] {
        assert Frames() == old(Frames())[..stackIndex] + [value];
      }
    }

    /** The escaping loop of INSERT_STRING and START_PROPERTY: every
        backslash and quote is written after a backslash. */
    method WriteEscaped(value: seq<char>)
      requires !failed
      modifies this`output
      ensures output == old(output) + Escape(value, '\\', Quote)
    {
      var i := 0;
      while !failed && i < |value|
        invariant 0 <= i <= |value|
        invariant output == old(output) + Escape(value[..i], '\\', Quote)
      {
        var c := value[i];
        if c == '\\' || c == '"' {
          output := output + ['\\'];
        }
        output := output + [c];
        EscapeSnoc(value[..i], c, '\\', Quote);
        assert value[..i + 1] == value[..i] + [c];
        i := i + 1;
      }
      assert value[..i] == value;
    }

    /** What INSERT_VALUE and INSERT_STRING do once the text is written: the
        innermost container is marked as holding something and the mask
        follows it. */
    method Settle(top: DataStructure)
      requires Valid() && top == Peek()
      modifies this`allowed, stack
      ensures Valid() && allowed == MaskAfter(top)
      ensures Frames() == if top == EmptyObject then Replaced(old(Frames()), Object)
                          else if top == EmptyList then Replaced(old(Frames()), List)
                          else old(Frames())
    {
      match top
      case EmptyObject =>
        Replace(Object);
        allowed := OpStartProperty | OpClose;
      case Object =>
        allowed := OpStartProperty | OpClose;
      case EmptyList =>
        Replace(List);
        allowed := ValueOps | OpClose;
      case List =>
        allowed := ValueOps | OpClose;
      case None =>
        allowed := OpNothing;
    }

    /** INSERT_VALUE (`quote` false) and INSERT_STRING (`quote` true), once
        allowed. */
    method Insert(value: seq<char>, quote: bool)
      requires Valid() && !failed
      modifies this`output, this`allowed, stack
      ensures Valid() && State() == Inserted(old(State()), if quote then Quoted(value) else value)
    {
      ghost var st := State();
      ghost var text := if quote then Quoted(value) else value;
      var top := Peek();
      WriteValue(top, value, quote);
      Settle(top);
      ghost var r := Inserted(st, text);
      assert Frames() == r.frames && allowed == r.allowed && output == r.output && failed == r.failed;
    }

    /** The text INSERT_VALUE and INSERT_STRING write: the separator in a
        list that holds something, then the value itself or, for a string,
        the quoted and escaped value. */
    method WriteValue(top: DataStructure, value: seq<char>, quote: bool)
      requires !failed
      modifies this`output
      ensures output == old(output) + Separator(top) + (if quote then Quoted(value) else value)
    {
      if top == List {
        output := output + ",";
      }
      if quote {
        WriteQuoted(value);
      } else {
        output := output + value;
      }
    }

    /** A string or a property name: quoted, with the escaping loop between
        the quotes. */
    method WriteQuoted(value: seq<char>)
      requires !failed
      modifies this`output
      ensures output == old(output) + Quoted(value)
    {
      output := output + "\"";
      WriteEscaped(value);
      output := output + "\"";
      Bracketed(old(output), "\"", Escape(value, '\\', Quote), "\"");
    }

    /** OPEN_LIST and OPEN_OBJECT, once allowed. */
    method Open(frame: DataStructure, bracket: seq<char>, mask: bv8)
      requires Valid() && !failed && frame != None
      modifies this`output, this`failed, this`allowed, this`stackIndex, stack
      ensures Valid() && State() == Opened(old(State()), frame, bracket, mask)
    {
      ghost var st := State();
      var top := Peek();
      MarkEnclosing(top);
      ghost var frames := Frames();
      output := output + bracket;
      var ok := Push(frame);
      failed := failed || !ok;
      allowed := mask;
      ghost var r := Opened(st, frame, bracket, mask);
      assert frames == if top == EmptyList then Replaced(st.frames, List) else st.frames;
      assert Frames() == r.frames && allowed == r.allowed && output == r.output && failed == r.failed;
    }

    /** Before a container is opened: the enclosing list is marked as
        holding something, or gets a separator when it already does. */
    method MarkEnclosing(top: DataStructure)
      requires Valid() && top == Peek()
      modifies this`output, stack
      ensures Valid() && output == old(output) + Separator(top)
      ensures Frames() == if top == EmptyList then Replaced(old(Frames()), List) else old(Frames())
    {
      if top == EmptyList {
        Replace(List);
      } else if top == List {
        output := output + ",";
      }
    }

    /** START_PROPERTY, once allowed: outside an object the writer fails and
        the short-circuited writes leave the output as it is. */
    method StartProperty(name: seq<char>)
      requires Valid() && !failed
      modifies this`output, this`failed, this`allowed, stack
      ensures Valid() && State() == PropertyStarted(old(State()), name)
    {
      var top := Peek();
      if top == EmptyObject {
        Replace(Object);
      } else if top == Object {
        output := output + ",";
      } else {
        failed := true;
      }
      if !failed {
        WriteQuoted(name);
        output := output + ":";
      }
      allowed := ValueOps;
    }

    /** CLOSE, once allowed. */
    method CloseContainer()
      requires Valid() && !failed
      modifies this`output, this`failed, this`allowed, this`stackIndex, stack
      ensures Valid() && State() == Closed(old(State()))
    {
      var top := Pop();
      if top == EmptyObject || top == Object {
        output := output + "}";
        allowed := MaskAfter(Peek());
      } else if top == EmptyList || top == List {
        output := output + "]";
        allowed := MaskAfter(Peek());
      } else {
        failed := true;
      }
    }

    /** evaluate(op, value) */
    method Evaluate(op: bv8, value: seq<char>)
      requires Valid()
      modifies this, stack
      ensures Valid() && State() == WriterSpec.Evaluate(old(State()), op, value)
    {
      if failed || !IsAllowed(op) {
        failed := true;
        return;
      }
      if op == OpInsertValue {
        Insert(value, false);
      } else if op == OpInsertString {
        Insert(value, true);
      } else if op == OpOpenList {
        Open(EmptyList, "[", ValueOps | OpClose);
      } else if op == OpOpenObject {
        Open(EmptyObject, "{", OpStartProperty | OpClose);
      } else if op == OpStartProperty {
        StartProperty(value);
      } else if op == OpClose {
        CloseContainer();
      } else {
        failed := true;
      }
    }

    method Null()
      requires Valid()
      modifies this, stack
      ensures Valid() && State() == WriterSpec.Null(old(State()))
    {
      Evaluate(OpInsertValue, "null");
    }

    method Boolean(value: Toolbox.Maybe<bool>)
      requires Valid()
      modifies this, stack
      ensures Valid() && State() == WriterSpec.Boolean(old(State()), value)
    {
      if value.Some? {
        Evaluate(OpInsertValue, if value.value then "true" else "false");
      } else {
        Null();
      }
    }

    /** number(int32_t): snprintf's "%i" text is Toolbox.FormatInt. */
    method NumberInt(value: Toolbox.Maybe<Int32>)
      requires Valid()
      modifies this, stack
      ensures Valid() && State() == WriterSpec.NumberInt(old(State()), value)
    {
      if value.Some? {
        Evaluate(OpInsertValue, Toolbox.FormatInt(value.value));
      } else {
        Null();
      }
    }

    method NumberDecimal(value: Toolbox.Maybe<Toolbox.Decimal>)
      requires Valid()
      modifies this, stack
      ensures Valid() && State() == WriterSpec.NumberDecimal(old(State()), value)
    {
      if value.Some? {
        Evaluate(OpInsertValue, Toolbox.ToString(value.value));
      } else {
        Null();
      }
    }

    method String(value: Toolbox.Maybe<seq<char>>)
      requires Valid()
      modifies this, stack
      ensures Valid() && State() == WriterSpec.String(old(State()), value)
    {
      if value.Some? {
        Evaluate(OpInsertString, value.value);
      } else {
        Null();
      }
    }

    method OpenList()
      requires Valid()
      modifies this, stack
      ensures Valid() && State() == WriterSpec.Evaluate(old(State()), OpOpenList, "")
    {
      Evaluate(OpOpenList, "");
    }

    method OpenObject()
      requires Valid()
      modifies this, stack
      ensures Valid() && State() == WriterSpec.Evaluate(old(State()), OpOpenObject, "")
    {
      Evaluate(OpOpenObject, "");
    }

    method Property(name: seq<char>)
      requires Valid()
      modifies this, stack
      ensures Valid() && State() == WriterSpec.Evaluate(old(State()), OpStartProperty, name)
    {
      Evaluate(OpStartProperty, name);
    }

    method Close()
      requires Valid()
      modifies this, stack
      ensures Valid() && State() == WriterSpec.Evaluate(old(State()), OpClose, "")
    {
      Evaluate(OpClose, "");
    }

    /** end(): closes containers while the writer has not failed and one is
        open. */
    method End()
      requires Valid()
      modifies this, stack
      ensures Valid() && State() == WriterSpec.End(old(State()))
    {
      while !failed && Peek() != None
        invariant Valid()
        invariant WriterSpec.End(State()) == WriterSpec.End(old(State()))
        decreases |Frames()| + (if failed then 0 else 1)
      {
        Close();
      }
    }

    /** failed() */
    function Failed(): (r: bool)
      reads this
      ensures r == failed
    {
      failed
    }
  }
}
