/**
 * `BufferedOutput`: a report that records the output calls made on it, as
 * (method name, positional arguments, keyword arguments) triples, and plays them
 * back later on another report. Also `group_by_heading`, which splits such a
 * recording into the sections its `add_heading` calls open.
 */
module Buffered {
  import opened Wrappers
  import opened Text
  import opened Report

  /** An argument value as it appears in a recording (recordings also round-trip through JSON). */
  datatype Value = Str(s: string) | Bool(b: bool) | Int(i: int)

  /** One recorded call: the method name, its positional arguments and its keyword arguments. */
  datatype Call = Call(attr: string, args: seq<Value>, kwargs: map<string, Value>)

  /** The six report methods a `BufferedOutput` records; asking it for any other attribute raises `AttributeError`. */
  predicate IsOutputMethod(attr: string) {
    attr == "add_heading" || attr == "print_ok" || attr == "print_error" ||
    attr == "print_warning" || attr == "print_block" || attr == "print_line"
  }

  /** A report method call with its arguments bound to its parameters. */
  datatype Op =
    | AddHeadingOp(heading: string)
    | PrintOkOp(message: string)
    | PrintErrorOp(message: string)
    | PrintWarningOp(message: string)
    | PrintBlockOp(message: string, firstLine: string)
    | PrintLineOp(message: string, monospace: Value)

  /** A parameter of a report method: its name and its default value, if it has one. */
  datatype Param = Param(name: string, default: Option<Value>)

  /** The parameters of each report method, in order. */
  function Params(attr: string): (ps: seq<Param>)
    requires IsOutputMethod(attr)
    ensures 1 <= |ps| <= 2 && ps[0].default.None?
  {
    if attr == "add_heading" then [Param("heading", None)]
    else if attr == "print_block" then [Param("message", None), Param("first_line", Some(Str(Indent)))]
    else if attr == "print_line" then [Param("message", None), Param("monospace", Some(Bool(false)))]
    else [Param("message", None)]
  }

  function ParamNames(params: seq<Param>): set<string> {
    set i | 0 <= i < |params| :: params[i].name
  }

  /** Parameter `i` takes the positional argument at its place, else its keyword argument, else its default. */
  function ArgFor(params: seq<Param>, args: seq<Value>, kwargs: map<string, Value>, i: nat): Option<Value>
    requires i < |params|
  {
    if i < |args| then Some(args[i])
    else if params[i].name in kwargs then Some(kwargs[params[i].name])
    else params[i].default
  }

  /**
   * Python's binding of a call's arguments to a function's parameters: too many positional
   * arguments, an unknown keyword, a parameter given both positionally and by keyword, or
   * a parameter left without a value each raise `TypeError`.
   */
  function Bind(params: seq<Param>, args: seq<Value>, kwargs: map<string, Value>): (r: Result<seq<Value>>)
    ensures r.Ok? ==> |r.value| == |params|
    ensures r.Ok? ==> forall i :: 0 <= i < |params| ==> ArgFor(params, args, kwargs, i) == Some(r.value[i])
  {
    if |args| > |params| then Err(TypeError)
    else if !(forall k :: k in kwargs ==> k in ParamNames(params)) then Err(TypeError)
    else if exists i :: 0 <= i < |args| && params[i].name in kwargs then Err(TypeError)
    else if exists i :: 0 <= i < |params| && ArgFor(params, args, kwargs, i).None? then Err(TypeError)
    else Ok(seq(|params|, i requires 0 <= i < |params| && ArgFor(params, args, kwargs, i).Some? =>
      ArgFor(params, args, kwargs, i).value))
  }

  /**
   * The bound arguments as the method uses them. A message or first line that is not a
   * string fails: `print_line` with `AttributeError` from `message.split`, the others with
   * `TypeError` from `len` or `re.sub`.
   */
  function Decode(attr: string, vals: seq<Value>): (r: Result<Op>)
    requires IsOutputMethod(attr) && |vals| == |Params(attr)|
    ensures r.Err? <==> !vals[0].Str? || (attr == "print_block" && !vals[1].Str?)
    ensures r.Err? ==> r.error == (if attr == "print_line" then AttributeError else TypeError)
  {
    if !vals[0].Str? then Err(if attr == "print_line" then AttributeError else TypeError)
    else
      var m := vals[0].s;
      if attr == "add_heading" then Ok(AddHeadingOp(m))
      else if attr == "print_ok" then Ok(PrintOkOp(m))
      else if attr == "print_error" then Ok(PrintErrorOp(m))
      else if attr == "print_warning" then Ok(PrintWarningOp(m))
      else if attr == "print_line" then Ok(PrintLineOp(m, vals[1]))
      else if vals[1].Str? then Ok(PrintBlockOp(m, vals[1].s))
      else Err(TypeError)
  }

  /** What `getattr(output, attr)(*args, **kwargs)` does on a `FileOutput`. */
  function OpOfCall(c: Call): (r: Result<Op>)
    ensures !IsOutputMethod(c.attr) ==> r == Err(AttributeError)
  {
    if !IsOutputMethod(c.attr) then Err(AttributeError)
    else match Bind(Params(c.attr), c.args, c.kwargs)
      case Err(e) => Err(e)
      case Ok(vals) => Decode(c.attr, vals)
  }

  function AttrOf(op: Op): string {
    match op
    case AddHeadingOp(_) => "add_heading"
    case PrintOkOp(_) => "print_ok"
    case PrintErrorOp(_) => "print_error"
    case PrintWarningOp(_) => "print_warning"
    case PrintBlockOp(_, _) => "print_block"
    case PrintLineOp(_, _) => "print_line"
  }

  /** The arguments of `op`, one per parameter, in order. */
  function ArgsOf(op: Op): seq<Value> {
    match op
    case AddHeadingOp(h) => [Str(h)]
    case PrintOkOp(m) => [Str(m)]
    case PrintErrorOp(m) => [Str(m)]
    case PrintWarningOp(m) => [Str(m)]
    case PrintBlockOp(m, f) => [Str(m), Str(f)]
    case PrintLineOp(m, mono) => [Str(m), mono]
  }

  /** No two parameters share a name. */
  predicate NamesDistinct(ps: seq<Param>) {
    forall i, j :: 0 <= i < j < |ps| ==> ps[i].name != ps[j].name
  }

  lemma ParamsDistinct(attr: string)
    requires IsOutputMethod(attr)
    ensures NamesDistinct(Params(attr))
  {
    var ps := Params(attr);
    if |ps| == 2 {
      assert |ps[0].name| != |ps[1].name|;
    }
  }

  lemma ArgsMatchParams(op: Op)
    ensures IsOutputMethod(AttrOf(op)) && |ArgsOf(op)| == |Params(AttrOf(op))|
  {
  }

  /** `vals[k..]` passed by keyword, each under its parameter's name. */
  function KeywordArgs(ps: seq<Param>, vals: seq<Value>, k: nat): (kw: map<string, Value>)
    requires |vals| == |ps|
    ensures forall i :: k <= i < |ps| ==> ps[i].name in kw
    ensures forall name :: name in kw ==> exists i :: k <= i < |ps| && ps[i].name == name
    ensures NamesDistinct(ps) ==> forall i :: k <= i < |ps| ==> kw[ps[i].name] == vals[i]
    decreases |ps| - k
  {
    if k >= |ps| then map[] else KeywordArgs(ps, vals, k + 1)[ps[k].name := vals[k]]
  }

  /** Arguments split between positions and keywords bind to the same values. */
  lemma BindSplit(ps: seq<Param>, vals: seq<Value>, k: nat)
    requires NamesDistinct(ps) && |vals| == |ps| && k <= |ps|
    ensures Bind(ps, vals[..k], KeywordArgs(ps, vals, k)) == Ok(vals)
  {
    var args, kw := vals[..k], KeywordArgs(ps, vals, k);
    KeywordsKnown(ps, vals, k);
    KeywordsAfterPositions(ps, vals, k);
    SplitArgFor(ps, vals, k);
    BindValues(ps, args, kw, vals);
  }

  /** When every parameter gets a value and no rule is broken, those values are what binding yields. */
  lemma BindValues(ps: seq<Param>, args: seq<Value>, kw: map<string, Value>, vals: seq<Value>)
    requires |args| <= |ps| == |vals|
    requires forall name :: name in kw ==> name in ParamNames(ps)
    requires forall i :: 0 <= i < |args| ==> ps[i].name !in kw
    requires forall i :: 0 <= i < |ps| ==> ArgFor(ps, args, kw, i) == Some(vals[i])
    ensures Bind(ps, args, kw) == Ok(vals)
  {
    assert !exists i :: 0 <= i < |args| && ps[i].name in kw;
    assert !exists i :: 0 <= i < |ps| && ArgFor(ps, args, kw, i).None?;
    var r := Bind(ps, args, kw);
    assert r.Ok?;
    assert |r.value| == |vals|;
    assert forall i :: 0 <= i < |ps| ==> r.value[i] == vals[i];
    assert r.value == vals;
  }

  lemma KeywordsKnown(ps: seq<Param>, vals: seq<Value>, k: nat)
    requires |vals| == |ps|
    ensures forall name :: name in KeywordArgs(ps, vals, k) ==> name in ParamNames(ps)
  {
    forall name | name in KeywordArgs(ps, vals, k)
      ensures name in ParamNames(ps)
    {
      var i :| k <= i < |ps| && ps[i].name == name;
    }
  }

  lemma KeywordsAfterPositions(ps: seq<Param>, vals: seq<Value>, k: nat)
    requires NamesDistinct(ps) && |vals| == |ps|
    ensures forall i :: 0 <= i < k && i < |ps| ==> ps[i].name !in KeywordArgs(ps, vals, k)
  {
    forall i | 0 <= i < k && i < |ps|
      ensures ps[i].name !in KeywordArgs(ps, vals, k)
    {
      assert forall j :: k <= j < |ps| ==> ps[j].name != ps[i].name;
    }
  }

  lemma SplitArgFor(ps: seq<Param>, vals: seq<Value>, k: nat)
    requires NamesDistinct(ps) && |vals| == |ps| && k <= |ps|
    ensures forall i :: 0 <= i < |ps| ==> ArgFor(ps, vals[..k], KeywordArgs(ps, vals, k), i) == Some(vals[i])
  {
  }


  /** The arguments of a method call, bound in order, decode to that call. */
  lemma DecodeArgs(op: Op)
    ensures IsOutputMethod(AttrOf(op)) && |ArgsOf(op)| == |Params(AttrOf(op))|
    ensures Decode(AttrOf(op), ArgsOf(op)) == Ok(op)
  {
  }

  /** The call `op` with its first `k` arguments passed positionally and the rest by keyword. */
  function SplitCall(op: Op, k: nat): Call
    requires k <= |ArgsOf(op)|
  {
    ArgsMatchParams(op);
    Call(AttrOf(op), ArgsOf(op)[..k], KeywordArgs(Params(AttrOf(op)), ArgsOf(op), k))
  }

  /**
   * A recorded call, however its arguments were split between positional and keyword
   * (`print_line(x, monospace=True)` is one of each), is replayed as the same method call.
   */
  lemma SplitCallReplays(op: Op, k: nat)
    requires k <= |ArgsOf(op)|
    ensures OpOfCall(SplitCall(op, k)) == Ok(op)
  {
    DecodeArgs(op);
    ParamsDistinct(AttrOf(op));
    BindSplit(Params(AttrOf(op)), ArgsOf(op), k);
  }

  /** A call that omits `print_block`'s first line, or `print_line`'s monospace flag, gets its default. */
  lemma DefaultsApply(m: string)
    ensures OpOfCall(Call("print_block", [Str(m)], map[])) == Ok(PrintBlockOp(m, Indent))
    ensures OpOfCall(Call("print_line", [Str(m)], map[])) == Ok(PrintLineOp(m, Bool(false)))
  {
    var ps := Params("print_block");
    assert Bind(ps, [Str(m)], map[]).Ok?;
    assert Bind(ps, [Str(m)], map[]).value == [Str(m), Str(Indent)];
    var ps' := Params("print_line");
    assert Bind(ps', [Str(m)], map[]).Ok?;
    assert Bind(ps', [Str(m)], map[]).value == [Str(m), Bool(false)];
  }

  /** The text a `FileOutput` of the given width writes for one method call. */
  function OpText(width: int, op: Op): string {
    match op
    case AddHeadingOp(h) => HeadingText(h)
    case PrintOkOp(m) => BlockText(width, OkPrefix, m)
    case PrintErrorOp(m) => BlockText(width, ErrorPrefix, m)
    case PrintWarningOp(m) => BlockText(width, WarningPrefix, m)
    case PrintBlockOp(m, f) => BlockText(width, f, m)
    case PrintLineOp(m, _) => var lines := SplitOn(m, '\n'); LineBlocksText(width, lines, |lines|)
  }

  /** `str(v)`, as `print` writes it. */
  function Show(v: Value): string {
    match v
    case Str(s) => s
    case Bool(b) => if b then "True" else "False"
    case Int(n) => IntToString(n)
  }

  /**
   * What a method has written when an argument of the wrong type makes it raise:
   * `add_heading` has printed a blank line and `str(heading)` before `len(heading)` fails;
   * `print_block`, and the three methods that call it, have printed `str(first_line)` before
   * `re.sub` or `len(first_line)` fails; `print_line` fails in `message.split` before writing.
   */
  function PartialText(attr: string, vals: seq<Value>): string
    requires IsOutputMethod(attr) && |vals| == |Params(attr)|
  {
    if attr == "add_heading" then "\n" + Show(vals[0]) + "\n"
    else if attr == "print_ok" then OkPrefix
    else if attr == "print_error" then ErrorPrefix
    else if attr == "print_warning" then WarningPrefix
    else if attr == "print_block" then Show(vals[1])
    else []
  }

  /** What one call writes on a `FileOutput`, and the exception it raises, if any. */
  datatype Replayed = Replayed(text: string, failure: Option<Error>)

  /**
   * `getattr(output, attr)(*args, **kwargs)` on a `FileOutput` of the given width: a call that
   * binds to a method with arguments of the right types writes that method's text; an unknown
   * name or a binding error raises before anything is written; an argument of the wrong type
   * raises after the method has written part of its text.
   */
  function CallEffect(width: int, c: Call): (e: Replayed)
    ensures e.failure.None? <==> OpOfCall(c).Ok?
    ensures OpOfCall(c).Ok? ==> e.text == OpText(width, OpOfCall(c).value)
    ensures OpOfCall(c).Err? ==> e.failure == Some(OpOfCall(c).error)
  {
    if !IsOutputMethod(c.attr) then Replayed([], Some(AttributeError))
    else match Bind(Params(c.attr), c.args, c.kwargs)
      case Err(err) => Replayed([], Some(err))
      case Ok(vals) =>
        match Decode(c.attr, vals)
        case Ok(op) => Replayed(OpText(width, op), None)
        case Err(err) => Replayed(PartialText(c.attr, vals), Some(err))
  }

  /**
   * Calls whose argument has the wrong type: `add_heading(v)` writes a blank line and `str(v)`,
   * the three prefixed methods write their prefix, `print_block` writes its first line, and all
   * of them raise `TypeError`; `print_line(v)` writes nothing and raises `AttributeError`.
   */
  lemma IllTypedCalls(width: int, v: Value, m: string)
    requires !v.Str?
    ensures CallEffect(width, Call("add_heading", [v], map[])) == Replayed("\n" + Show(v) + "\n", Some(TypeError))
    ensures CallEffect(width, Call("print_ok", [v], map[])) == Replayed(OkPrefix, Some(TypeError))
    ensures CallEffect(width, Call("print_error", [v], map[])) == Replayed(ErrorPrefix, Some(TypeError))
    ensures CallEffect(width, Call("print_warning", [v], map[])) == Replayed(WarningPrefix, Some(TypeError))
    ensures CallEffect(width, Call("print_block", [v], map[])) == Replayed(Indent, Some(TypeError))
    ensures CallEffect(width, Call("print_block", [Str(m), v], map[])) == Replayed(Show(v), Some(TypeError))
    ensures CallEffect(width, Call("print_line", [v], map[])) == Replayed([], Some(AttributeError))
  {
    assert Bind(Params("add_heading"), [v], map[]).value == [v];
    assert Bind(Params("print_ok"), [v], map[]).value == [v];
    assert Bind(Params("print_error"), [v], map[]).value == [v];
    assert Bind(Params("print_warning"), [v], map[]).value == [v];
    assert Bind(Params("print_block"), [v], map[]).value == [v, Str(Indent)];
    assert Bind(Params("print_block"), [Str(m), v], map[]).value == [Str(m), v];
    assert Bind(Params("print_line"), [v], map[]).value == [v, Bool(false)];
  }

  /** The calls are made in order; the first one that raises ends the playback. */
  function Replay(width: int, calls: seq<Call>): Replayed {
    if calls == [] then Replayed([], None)
    else
      var before := Replay(width, calls[..|calls| - 1]);
      if before.failure.Some? then before
      else
        var e := CallEffect(width, calls[|calls| - 1]);
        Replayed(before.text + e.text, e.failure)
  }

  /** One more call after a playback that has not raised: its text is written, and it may raise. */
  lemma ReplayStep(width: int, calls: seq<Call>, i: nat)
    requires i < |calls| && Replay(width, calls[..i]).failure.None?
    ensures var e := CallEffect(width, calls[i]);
      Replay(width, calls[..i + 1]) == Replayed(Replay(width, calls[..i]).text + e.text, e.failure)
  {
    assert calls[..i + 1][..i] == calls[..i];
  }

  /** Calls after the one that raised are never made. */
  lemma {:induction false} ReplayStops(width: int, calls: seq<Call>, i: nat)
    requires i <= |calls| && Replay(width, calls[..i]).failure.Some?
    ensures Replay(width, calls) == Replay(width, calls[..i])
    decreases |calls| - i
  {
    if i < |calls| {
      assert calls[..i + 1][..i] == calls[..i];
      ReplayStops(width, calls, i + 1);
    } else {
      assert calls[..i] == calls;
    }
  }

  /** The text of the method calls `ops`, made one after another. */
  function OpsText(width: int, ops: seq<Op>): string {
    if ops == [] then [] else OpsText(width, ops[..|ops| - 1]) + OpText(width, ops[|ops| - 1])
  }

  /** Each split fits its call: no more positional arguments than the method takes. */
  predicate SplitsFit(ops: seq<Op>, splits: seq<nat>) {
    |splits| == |ops| && forall i :: 0 <= i < |ops| ==> splits[i] <= |ArgsOf(ops[i])|
  }

  /** The recording of `ops`, call `i` passing its first `splits[i]` arguments positionally. */
  function RecordedCalls(ops: seq<Op>, splits: seq<nat>): (calls: seq<Call>)
    requires SplitsFit(ops, splits)
    ensures |calls| == |ops|
  {
    seq(|ops|, i requires 0 <= i < |ops| => SplitCall(ops[i], splits[i]))
  }

  /** Recording method calls and playing them back on a report writes what making the calls directly would. */
  lemma {:induction false} ReplayOfRecorded(width: int, ops: seq<Op>, splits: seq<nat>)
    requires SplitsFit(ops, splits)
    ensures Replay(width, RecordedCalls(ops, splits)) == Replayed(OpsText(width, ops), None)
  {
    if ops != [] {
      var calls := RecordedCalls(ops, splits);
      var n := |ops| - 1;
      assert SplitsFit(ops[..n], splits[..n]);
      assert calls[..n] == RecordedCalls(ops[..n], splits[..n]);
      ReplayOfRecorded(width, ops[..n], splits[..n]);
      SplitCallReplays(ops[n], splits[n]);
    }
  }

  /** `getattr(output, attr)(...)` on a `FileOutput`: the bound method call. */
  method Apply(out: FileOutput, op: Op)
    modifies out
    ensures out.buf == old(out.buf) + OpText(old(out.width), op)
    ensures out.width == old(out.width)
  {
    match op
    case AddHeadingOp(h) => out.AddHeading(h);
    case PrintOkOp(m) => out.PrintOk(m);
    case PrintErrorOp(m) => out.PrintError(m);
    case PrintWarningOp(m) => out.PrintWarning(m);
    case PrintBlockOp(m, f) => out.PrintBlock(m, f);
    case PrintLineOp(m, _) => out.PrintLine(m);
  }

  /** One recorded call made on a `FileOutput`, including what it writes before it raises. */
  method ApplyCall(out: FileOutput, c: Call) returns (r: Result<()>)
    modifies out
    ensures out.width == old(out.width)
    ensures out.buf == old(out.buf) + CallEffect(old(out.width), c).text
    ensures r.Err? <==> CallEffect(old(out.width), c).failure.Some?
    ensures r.Err? ==> CallEffect(old(out.width), c).failure == Some(r.error)
  {
    if !IsOutputMethod(c.attr) {
      return Err(AttributeError);
    }
    var bound := Bind(Params(c.attr), c.args, c.kwargs);
    if bound.Err? {
      return Err(bound.error);
    }
    match Decode(c.attr, bound.value)
    case Ok(op) =>
      Apply(out, op);
      r := Ok(());
    case Err(e) =>
      out.Emit(PartialText(c.attr, bound.value));
      r := Err(e);
  }

  /** Index of the first call whose name is not one of the report methods, or the number of calls. */
  function FirstUnknown(calls: seq<Call>): (k: nat)
    ensures k <= |calls|
    ensures forall i :: 0 <= i < k ==> IsOutputMethod(calls[i].attr)
    ensures k < |calls| ==> !IsOutputMethod(calls[k].attr)
  {
    if calls == [] then 0
    else if !IsOutputMethod(calls[0].attr) then 0
    else 1 + FirstUnknown(calls[1..])
  }

  /** A report that records the calls made on it. */
  class BufferedOutput {
    var buf: seq<Call>

    /** `BufferedOutput(with_lines)`: starts from the given recording, or an empty one. */
    constructor (withLines: Option<seq<Call>>)
      ensures buf == (if withLines.Some? then withLines.value else [])
    {
      buf := if withLines.Some? then withLines.value else [];
    }

    /**
     * `getattr(self, attr)(*args, **kwargs)`: a report method is recorded, with its
     * arguments as given; any other name that reaches `__getattr__` raises `AttributeError` and records nothing.
     */
    method Record(attr: string, args: seq<Value>, kwargs: map<string, Value>) returns (r: Result<()>)
      modifies this
      ensures IsOutputMethod(attr) ==> r == Ok(()) && buf == old(buf) + [Call(attr, args, kwargs)]
      ensures !IsOutputMethod(attr) ==> r == Err(AttributeError) && buf == old(buf)
    {
      if !IsOutputMethod(attr) {
        return Err(AttributeError);
      }
      buf := buf + [Call(attr, args, kwargs)];
      r := Ok(());
    }

    /**
     * `playback` onto another recorder: every call is recorded there, in order, until a
     * name that is not a report method raises `AttributeError`.
     */
    method PlaybackInto(target: BufferedOutput) returns (r: Result<()>)
      requires target != this
      modifies target
      ensures var k := FirstUnknown(buf);
        && target.buf == old(target.buf) + buf[..k]
        && (r.Ok? <==> k == |buf|)
        && (r.Err? ==> r.error == AttributeError)
    {
      var k := FirstUnknown(buf);
      for i := 0 to |buf|
        invariant i <= k
        invariant target.buf == old(target.buf) + buf[..i]
      {
        var c := buf[i];
        var res := target.Record(c.attr, c.args, c.kwargs);
        if res.Err? {
          return res;
        }
        assert buf[..i + 1] == buf[..i] + [c];
      }
      assert buf[..|buf|] == buf;
      r := Ok(());
    }

    /**
     * `playback` onto a `FileOutput`: the recorded calls are made on it in order; the first
     * call that raises ends the playback with that exception, after what it wrote before raising.
     */
    method PlaybackTo(out: FileOutput) returns (r: Result<()>)
      modifies out
      ensures out.width == old(out.width)
      ensures out.buf == old(out.buf) + Replay(old(out.width), buf).text
      ensures r.Err? <==> Replay(old(out.width), buf).failure.Some?
      ensures r.Err? ==> Replay(old(out.width), buf).failure == Some(r.error)
    {
      var calls := buf;
      var width := out.width;
      for i := 0 to |calls|
        invariant out.width == width
        invariant Replay(width, calls[..i]).failure.None?
        invariant out.buf == old(out.buf) + Replay(width, calls[..i]).text
      {
        ReplayStep(width, calls, i);
        var res := ApplyCall(out, calls[i]);
        AppendAssoc(old(out.buf), Replay(width, calls[..i]).text, CallEffect(width, calls[i]).text);
        if res.Err? {
          ReplayStops(width, calls, i + 1);
          return res;
        }
      }
      assert calls[..|calls|] == calls;
      r := Ok(());
    }
  }

  /** The key of the section every call before the first heading belongs to. */
  const NoCategory: Value := Str("No Category")

  predicate IsHeading(c: Call) {
    c.attr == "add_heading"
  }

  /**
   * `group_by_heading`'s state: the `OrderedDict` of sections as (key, calls) pairs in
   * insertion order, and the index of the section `k` currently refers to.
   */
  datatype Grouping = Grouping(sections: seq<(Value, seq<Call>)>, cur: nat)
  {
    predicate Valid() {
      cur < |sections|
    }
  }

  /** Position of `key` among the keys of `sections`, or `|sections|` when it is not there. */
  function KeyIndex(sections: seq<(Value, seq<Call>)>, key: Value): (j: nat)
    ensures j <= |sections|
    ensures j < |sections| ==> sections[j].0 == key
    ensures forall i :: 0 <= i < j ==> sections[i].0 != key
  {
    if sections == [] then 0
    else if sections[0].0 == key then 0
    else 1 + KeyIndex(sections[1..], key)
  }

  /**
   * `k = []; ret[key] = k`: a new empty section; assigning to a key already present
   * replaces its calls and keeps its position.
   */
  function StartSection(g: Grouping, key: Value): (g': Grouping)
    ensures g'.Valid()
  {
    var j := KeyIndex(g.sections, key);
    if j < |g.sections| then Grouping(g.sections[j := (key, [])], j)
    else Grouping(g.sections + [(key, [])], |g.sections|)
  }

  /** `k.append(line)`: the call joins the current section. */
  function AddToCurrent(g: Grouping, c: Call): (g': Grouping)
    requires g.Valid()
    ensures g'.Valid()
  {
    Grouping(g.sections[g.cur := (g.sections[g.cur].0, g.sections[g.cur].1 + [c])], g.cur)
  }

  /** One iteration of the loop; a heading call without arguments raises `IndexError`. */
  function GroupStep(g: Grouping, c: Call): (r: Result<Grouping>)
    requires g.Valid()
    ensures r.Ok? ==> r.value.Valid()
  {
    if IsHeading(c) then
      if c.args == [] then Err(IndexError) else Ok(StartSection(g, c.args[0]))
    else Ok(AddToCurrent(g, c))
  }

  /** The state after the loop has consumed `lines`, starting from the lone "No Category" section. */
  function GroupFold(lines: seq<Call>): (r: Result<Grouping>)
    ensures r.Ok? ==> r.value.Valid()
  {
    if lines == [] then Ok(Grouping([(NoCategory, [])], 0))
    else match GroupFold(lines[..|lines| - 1])
      case Err(e) => Err(e)
      case Ok(g) => GroupStep(g, lines[|lines| - 1])
  }

  /** `group_by_heading(lines)`: the sections of a recording, as the ordered (key, calls) pairs. */
  method GroupByHeading(lines: seq<Call>) returns (r: Result<seq<(Value, seq<Call>)>>)
    ensures GroupFold(lines).Err? ==> r == Err(GroupFold(lines).error)
    ensures GroupFold(lines).Ok? ==> r == Ok(GroupFold(lines).value.sections)
  {
    var sections: seq<(Value, seq<Call>)> := [(NoCategory, [])];
    var cur := 0;
    for i := 0 to |lines|
      invariant GroupFold(lines[..i]) == Ok(Grouping(sections, cur))
    {
      assert lines[..i + 1][..i] == lines[..i];
      var line := lines[i];
      ghost var g := Grouping(sections, cur);
      assert GroupFold(lines[..i + 1]) == GroupStep(g, line);
      if line.attr == "add_heading" {
        if line.args == [] {
          GroupFoldStops(lines, i + 1);
          return Err(IndexError);
        }
        var key := line.args[0];
        var j := 0;
        while j < |sections| && sections[j].0 != key
          invariant j <= |sections|
          invariant forall m :: 0 <= m < j ==> sections[m].0 != key
        {
          j := j + 1;
        }
        assert j == KeyIndex(sections, key);
        if j < |sections| {
          sections := sections[j := (key, [])];
        } else {
          sections := sections + [(key, [])];
        }
        cur := j;
      } else {
        sections := sections[cur := (sections[cur].0, sections[cur].1 + [line])];
      }
    }
    assert lines[..|lines|] == lines;
    return Ok(sections);
  }

  /** Once a call has raised, the calls after it are never looked at. */
  lemma {:induction false} GroupFoldStops(lines: seq<Call>, i: nat)
    requires i <= |lines| && GroupFold(lines[..i]).Err?
    ensures GroupFold(lines) == GroupFold(lines[..i])
    decreases |lines| - i
  {
    if i < |lines| {
      assert lines[..i + 1][..i] == lines[..i];
      GroupFoldStops(lines, i + 1);
    } else {
      assert lines[..i] == lines;
    }
  }

  /** Every `add_heading` call has an argument to use as its key. */
  predicate HeadingsHaveKeys(lines: seq<Call>) {
    forall i :: 0 <= i < |lines| && IsHeading(lines[i]) ==> lines[i].args != []
  }

  /** The loop raises, with `IndexError`, exactly when some `add_heading` call has no argument. */
  lemma {:induction false} GroupFoldFails(lines: seq<Call>)
    ensures GroupFold(lines).Ok? <==> HeadingsHaveKeys(lines)
    ensures GroupFold(lines).Err? ==> GroupFold(lines).error == IndexError
  {
    if lines != [] {
      var init := lines[..|lines| - 1];
      GroupFoldFails(init);
      assert forall i :: 0 <= i < |init| ==> init[i] == lines[i];
    }
  }

  /** No two sections share a key. */
  predicate DistinctKeys(sections: seq<(Value, seq<Call>)>) {
    forall i, j :: 0 <= i < j < |sections| ==> sections[i].0 != sections[j].0
  }

  /** "No Category" is always the first section, and keys are never repeated. */
  lemma {:induction false} GroupFoldShape(lines: seq<Call>)
    requires GroupFold(lines).Ok?
    ensures var s := GroupFold(lines).value.sections;
      s[0].0 == NoCategory && DistinctKeys(s)
  {
    if lines != [] {
      var init := lines[..|lines| - 1];
      GroupFoldShape(init);
      StepShape(GroupFold(init).value, lines[|lines| - 1]);
    }
  }

  lemma StepShape(g: Grouping, c: Call)
    requires g.Valid() && g.sections[0].0 == NoCategory && DistinctKeys(g.sections)
    requires GroupStep(g, c).Ok?
    ensures var s := GroupStep(g, c).value.sections;
      s[0].0 == NoCategory && DistinctKeys(s)
  {
    var s := GroupStep(g, c).value.sections;
    assert |s| >= |g.sections|;
    assert forall i :: 0 <= i < |g.sections| ==> s[i].0 == g.sections[i].0;
    if |s| > |g.sections| {
      assert s == g.sections + [(c.args[0], [])];
    }
  }

  /** Index of the first heading call, or the number of calls. */
  function FirstHeading(lines: seq<Call>): (n: nat)
    ensures n <= |lines|
    ensures forall i :: 0 <= i < n ==> !IsHeading(lines[i])
    ensures n < |lines| ==> IsHeading(lines[n])
  {
    if lines == [] || IsHeading(lines[0]) then 0 else 1 + FirstHeading(lines[1..])
  }

  /**
   * The sections of a recording, read front to back: the calls up to the first heading
   * form a section under `key`; each heading then opens a section, under its argument,
   * that holds the calls up to the next heading.
   */
  function Sections(key: Value, lines: seq<Call>): (r: seq<(Value, seq<Call>)>)
    requires HeadingsHaveKeys(lines)
    ensures |r| >= 1 && r[0].0 == key
    decreases |lines|
  {
    var n := FirstHeading(lines);
    if n == |lines| then [(key, lines)]
    else
      HeadingsHaveKeysSlice(lines, n + 1, |lines|);
      [(key, lines[..n])] + Sections(lines[n].args[0], lines[n + 1..])
  }

  /** The keys of the headings, in order. */
  function HeadingKeys(lines: seq<Call>): seq<Value>
    requires HeadingsHaveKeys(lines)
  {
    if lines == [] then []
    else
      var init := lines[..|lines| - 1];
      var c := lines[|lines| - 1];
      HeadingsHaveKeysSlice(lines, 0, |lines| - 1);
      HeadingKeys(init) + (if IsHeading(c) then [c.args[0]] else [])
  }

  function KeysOf(sections: seq<(Value, seq<Call>)>): (keys: seq<Value>)
  {
    seq(|sections|, i requires 0 <= i < |sections| => sections[i].0)
  }

  /** The last section with call `c` added at its end. */
  function AppendLast(sections: seq<(Value, seq<Call>)>, c: Call): seq<(Value, seq<Call>)>
    requires sections != []
  {
    var k := |sections| - 1;
    sections[k := (sections[k].0, sections[k].1 + [c])]
  }

  /** The sections after one more call: a heading opens a section, any other call joins the last one. */
  function NextSections(s: seq<(Value, seq<Call>)>, c: Call): seq<(Value, seq<Call>)>
    requires s != [] && (IsHeading(c) ==> c.args != [])
  {
    if IsHeading(c) then s + [(c.args[0], [])] else AppendLast(s, c)
  }

  lemma HeadingsHaveKeysSlice(lines: seq<Call>, a: nat, b: nat)
    requires HeadingsHaveKeys(lines) && a <= b <= |lines|
    ensures HeadingsHaveKeys(lines[a..b])
  {
    forall i | 0 <= i < b - a && IsHeading(lines[a..b][i])
      ensures lines[a..b][i].args != []
    {
      assert lines[a..b][i] == lines[a + i];
    }
  }

  lemma HeadingsHaveKeysSnoc(init: seq<Call>, c: Call)
    requires HeadingsHaveKeys(init) && (IsHeading(c) ==> c.args != [])
    ensures HeadingsHaveKeys(init + [c])
  {
    var lines := init + [c];
    forall i | 0 <= i < |lines| && IsHeading(lines[i])
      ensures lines[i].args != []
    {
      if i < |init| {
        assert lines[i] == init[i];
      }
    }
  }

  /** Appending a call to a recording adds a section (for a heading) or extends the last one. */
  lemma {:induction false} SectionsSnoc(key: Value, init: seq<Call>, c: Call)
    requires HeadingsHaveKeys(init) && (IsHeading(c) ==> c.args != [])
    ensures HeadingsHaveKeys(init + [c])
    ensures Sections(key, init + [c]) ==
      NextSections(Sections(key, init), c)
    decreases |init|, 1
  {
    HeadingsHaveKeysSnoc(init, c);
    var n := FirstHeading(init);
    if n == |init| {
      SectionsSnocPlain(key, init, c);
    } else {
      SectionsSnocLater(key, init, c, n);
    }
  }

  /** `SectionsSnoc` when `init` holds a heading, at `n`: the first section is unchanged. */
  lemma {:induction false} SectionsSnocLater(key: Value, init: seq<Call>, c: Call, n: nat)
    requires HeadingsHaveKeys(init) && (IsHeading(c) ==> c.args != [])
    requires n == FirstHeading(init) < |init|
    ensures HeadingsHaveKeys(init + [c])
    ensures Sections(key, init + [c]) ==
      NextSections(Sections(key, init), c)
    decreases |init|, 0
  {
    HeadingsHaveKeysSnoc(init, c);
    var lines := init + [c];
    FirstHeadingOf(lines, n);
    assert lines[n] == init[n];
    assert lines[..n] == init[..n];
    assert lines[n + 1..] == init[n + 1..] + [c];
    var k' := init[n].args[0];
    HeadingsHaveKeysSlice(init, n + 1, |init|);
    SectionsSnoc(k', init[n + 1..], c);
    var rest := Sections(k', init[n + 1..]);
    HeadingsHaveKeysSlice(lines, n + 1, |lines|);
    SectionsUnfold(key, init, n);
    SectionsUnfold(key, lines, n);
    if IsHeading(c) {
      AppendAssoc([(key, init[..n])], rest, [(c.args[0], [])]);
    } else {
      AppendLastCons((key, init[..n]), rest, c);
    }
  }

  lemma SectionsUnfold(key: Value, lines: seq<Call>, n: nat)
    requires HeadingsHaveKeys(lines) && n == FirstHeading(lines) < |lines|
    requires HeadingsHaveKeys(lines[n + 1..])
    ensures Sections(key, lines) == [(key, lines[..n])] + Sections(lines[n].args[0], lines[n + 1..])
  {
  }

  lemma AppendLastCons(first: (Value, seq<Call>), rest: seq<(Value, seq<Call>)>, c: Call)
    requires rest != []
    ensures AppendLast([first] + rest, c) == [first] + AppendLast(rest, c)
  {
  }

  /** Appending to a recording without headings. */
  lemma SectionsSnocPlain(key: Value, init: seq<Call>, c: Call)
    requires HeadingsHaveKeys(init) && (IsHeading(c) ==> c.args != []) && FirstHeading(init) == |init|
    ensures HeadingsHaveKeys(init + [c])
    ensures Sections(key, init + [c]) ==
      if IsHeading(c) then [(key, init), (c.args[0], [])]
      else [(key, init + [c])]
    ensures Sections(key, init) == [(key, init)]
  {
    HeadingsHaveKeysSnoc(init, c);
    var lines := init + [c];
    FirstHeadingOf(lines, if IsHeading(c) then |init| else |init| + 1);
    if IsHeading(c) {
      assert lines[..|init|] == init;
      assert lines[|init| + 1..] == [];
    }
  }

  /** `n` is the index of the first heading when no earlier call is one and `n` is one or the end. */
  lemma FirstHeadingOf(lines: seq<Call>, n: nat)
    requires n <= |lines|
    requires forall i :: 0 <= i < n ==> !IsHeading(lines[i])
    requires n < |lines| ==> IsHeading(lines[n])
    ensures FirstHeading(lines) == n
  {
  }

  /** Removing the last call from a recording drops its key, if it is a heading. */
  lemma HeadingKeysSnoc(init: seq<Call>, c: Call)
    requires HeadingsHaveKeys(init + [c])
    ensures HeadingsHaveKeys(init) && (IsHeading(c) ==> c.args != [])
    ensures HeadingKeys(init + [c]) == HeadingKeys(init) + (if IsHeading(c) then [c.args[0]] else [])
  {
    assert (init + [c])[..|init|] == init;
    assert (init + [c])[|init|] == c;
    HeadingsHaveKeysSlice(init + [c], 0, |init|);
  }

  /** The keys of the sections are `key` followed by the headings' keys, in order. */
  lemma {:induction false} SectionKeys(key: Value, lines: seq<Call>)
    requires HeadingsHaveKeys(lines)
    ensures KeysOf(Sections(key, lines)) == [key] + HeadingKeys(lines)
    decreases |lines|, 1
  {
    if lines == [] {
      assert KeysOf(Sections(key, lines)) == [key];
    } else {
      var init := lines[..|lines| - 1];
      assert lines == init + [lines[|lines| - 1]];
      SectionKeysSnoc(key, init, lines[|lines| - 1]);
    }
  }

  lemma {:induction false} SectionKeysSnoc(key: Value, init: seq<Call>, c: Call)
    requires HeadingsHaveKeys(init + [c])
    ensures KeysOf(Sections(key, init + [c])) == [key] + HeadingKeys(init + [c])
    decreases |init| + 1, 0
  {
    HeadingKeysSnoc(init, c);
    SectionKeys(key, init);
    SectionsSnoc(key, init, c);
    KeysOfStep(Sections(key, init), c);
    var h: seq<Value> := if IsHeading(c) then [c.args[0]] else [];
    AppendAssoc([key], HeadingKeys(init), h);
  }

  lemma KeysOfStep(s: seq<(Value, seq<Call>)>, c: Call)
    requires s != [] && (IsHeading(c) ==> c.args != [])
    ensures KeysOf(NextSections(s, c)) ==
      KeysOf(s) + (if IsHeading(c) then [c.args[0]] else [])
  {
    if IsHeading(c) {
      KeysOfSnoc(s, (c.args[0], []));
    } else {
      KeysOfAppendLast(s, c);
    }
  }

  lemma KeysOfSnoc(s: seq<(Value, seq<Call>)>, x: (Value, seq<Call>))
    ensures KeysOf(s + [x]) == KeysOf(s) + [x.0]
  {
    assert forall i :: 0 <= i < |s| ==> (s + [x])[i] == s[i];
  }

  lemma KeysOfAppendLast(s: seq<(Value, seq<Call>)>, c: Call)
    requires s != []
    ensures KeysOf(AppendLast(s, c)) == KeysOf(s)
  {
  }

  /**
   * When the headings carry distinct keys other than "No Category", the loop's result is the
   * front-to-back segmentation: the calls before the first heading under "No Category", then
   * one section per heading holding the calls up to the next heading, in order.
   */
  lemma {:induction false} GroupBySections(lines: seq<Call>)
    requires HeadingsHaveKeys(lines) && Distinct([NoCategory] + HeadingKeys(lines))
    ensures var s := Sections(NoCategory, lines);
      GroupFold(lines) == Ok(Grouping(s, |s| - 1))
    decreases |lines|, 1
  {
    if lines == [] {
      assert Sections(NoCategory, lines) == [(NoCategory, [])];
    } else {
      var init := lines[..|lines| - 1];
      assert lines == init + [lines[|lines| - 1]];
      GroupBySectionsSnoc(init, lines[|lines| - 1]);
    }
  }

  lemma {:induction false} GroupBySectionsSnoc(init: seq<Call>, c: Call)
    requires HeadingsHaveKeys(init + [c]) && Distinct([NoCategory] + HeadingKeys(init + [c]))
    ensures var s := Sections(NoCategory, init + [c]);
      GroupFold(init + [c]) == Ok(Grouping(s, |s| - 1))
    decreases |init| + 1, 0
  {
    KeyIsNew(init, c);
    GroupBySections(init);
    SectionsSnoc(NoCategory, init, c);
    FoldStepSections(init, c, Sections(NoCategory, init));
  }

  /** With distinct keys, the heading `c` that follows `init` opens a section under a new key. */
  lemma KeyIsNew(init: seq<Call>, c: Call)
    requires HeadingsHaveKeys(init + [c]) && Distinct([NoCategory] + HeadingKeys(init + [c]))
    ensures HeadingsHaveKeys(init) && Distinct([NoCategory] + HeadingKeys(init))
    ensures IsHeading(c) ==> c.args != [] && c.args[0] !in KeysOf(Sections(NoCategory, init))
  {
    HeadingKeysSnoc(init, c);
    var keys := [NoCategory] + HeadingKeys(init);
    if IsHeading(c) {
      var k := c.args[0];
      assert [NoCategory] + HeadingKeys(init + [c]) == keys + [k];
      DistinctSnoc(keys, k);
      SectionKeys(NoCategory, init);
    } else {
      assert [NoCategory] + HeadingKeys(init + [c]) == keys;
    }
  }

  /** The loop's step after `init`, from a state holding sections `s`, when a heading's key is new. */
  lemma FoldStepSections(init: seq<Call>, c: Call, s: seq<(Value, seq<Call>)>)
    requires s != [] && GroupFold(init) == Ok(Grouping(s, |s| - 1))
    requires IsHeading(c) ==> c.args != [] && c.args[0] !in KeysOf(s)
    ensures var s2 := NextSections(s, c);
      GroupFold(init + [c]) == Ok(Grouping(s2, |s2| - 1))
  {
    GroupFoldSnoc(init, c);
    StepOfSections(s, c);
  }

  /** One loop step on the sections so far, when a heading's key is new: a section is added or the last one grows. */
  lemma StepOfSections(s: seq<(Value, seq<Call>)>, c: Call)
    requires s != [] && (IsHeading(c) ==> c.args != [] && c.args[0] !in KeysOf(s))
    ensures var s' := NextSections(s, c);
      GroupStep(Grouping(s, |s| - 1), c) == Ok(Grouping(s', |s'| - 1))
  {
    if IsHeading(c) {
      NewKeyIndex(s, c.args[0]);
    }
  }

  lemma GroupFoldSnoc(init: seq<Call>, c: Call)
    ensures GroupFold(init + [c]) ==
      if GroupFold(init).Err? then Err(GroupFold(init).error) else GroupStep(GroupFold(init).value, c)
  {
    assert (init + [c])[..|init|] == init;
  }

  lemma DistinctSnoc(keys: seq<Value>, k: Value)
    requires Distinct(keys + [k])
    ensures Distinct(keys) && k !in keys
  {
    assert forall i :: 0 <= i < |keys| ==> (keys + [k])[i] == keys[i];
    assert (keys + [k])[|keys|] == k;
  }

  /** A key not yet present is looked up past the end. */
  lemma NewKeyIndex(s: seq<(Value, seq<Call>)>, k: Value)
    requires k !in KeysOf(s)
    ensures KeyIndex(s, k) == |s|
  {
    assert forall i :: 0 <= i < |s| ==> KeysOf(s)[i] == s[i].0;
  }
}
