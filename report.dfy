/**
 * The plain-text report writer (`FileOutput`): headings underlined with '=', and
 * messages word-wrapped greedily to the width of the terminal or e-mail, with
 * continuation lines indented by three spaces.
 *
 * The wrapping is specified by `Layout`, which arranges the message's tokens into
 * lines, and `WrappedText`, which turns the lines into text; `PrintBlock` is proved
 * to write exactly that text, and the lemmas below state what the layout promises.
 */
module Report {
  import opened Text
  import opened Wrappers

  /** Prefixes of the three kinds of status line: a check mark, a cross and a question mark, each followed by two spaces. */
  const OkPrefix: string := "\U{2713}  "
  const ErrorPrefix: string := "\U{2716}  "
  const WarningPrefix: string := "?  "
  /** `print_block`'s default first line, which is also the indentation of every continuation line. */
  const Indent: string := "   "
  /** What a line break inside a block writes: a newline and the indentation. */
  const LineBreak: string := "\n   "
  /** Width of `ConsoleOutput` when the terminal size cannot be read. */
  const DefaultConsoleWidth: int := 76

  /** `re.sub("\n\s*", " ", s)`: each newline, together with the whitespace after it, becomes one space. */
  function CollapseNewlines(s: string): (r: string)
    ensures |r| <= |s|
    decreases |s|
  {
    if s == [] then []
    else if s[0] == '\n' then " " + CollapseNewlines(s[1..][LeadingSpace(s[1..])..])
    else [s[0]] + CollapseNewlines(s[1..])
  }

  /** Collapsing newline runs leaves no newline and keeps every other visible character, in order. */
  lemma {:induction false} CollapseNewlinesSpec(s: string)
    ensures '\n' !in CollapseNewlines(s)
    ensures NonSpace(CollapseNewlines(s)) == NonSpace(s)
    decreases |s|
  {
    if s == [] {
    } else if s[0] == '\n' {
      var n := LeadingSpace(s[1..]);
      CollapseNewlinesSpec(s[1..][n..]);
      CollapsedRun(s, n, CollapseNewlines(s[1..][n..]));
    } else {
      CollapseNewlinesSpec(s[1..]);
      NonSpaceAppend([s[0]], s[1..]);
      NonSpaceAppend([s[0]], CollapseNewlines(s[1..]));
      assert s == [s[0]] + s[1..];
    }
  }

  lemma CollapsedRun(s: string, n: nat, rest: string)
    requires s != [] && s[0] == '\n' && n == LeadingSpace(s[1..])
    requires NonSpace(rest) == NonSpace(s[1..][n..])
    ensures NonSpace(" " + rest) == NonSpace(s)
  {
    var run := [s[0]] + s[1..][..n];
    assert s == run + s[1..][n..];
    assert AllSpace(run);
    NonSpaceOfAllSpace(run);
    NonSpaceAppend(run, s[1..][n..]);
    NonSpaceAppend(" ", rest);
  }
  /**
   * Collapsing newline runs changes none of the message's words, nor whether it starts
   * inside a word: a run it replaces is whitespace and becomes whitespace.
   */
  lemma {:induction false} CollapseNewlinesWords(s: string)
    ensures Words(CollapseNewlines(s)) == Words(s)
    ensures StartsInWord(CollapseNewlines(s)) == StartsInWord(s)
    decreases |s|
  {
    if s == [] {
    } else if s[0] == '\n' {
      var rest := s[1..][LeadingSpace(s[1..])..];
      CollapseNewlinesWords(rest);
      CollapsedRunWords(s, CollapseNewlines(rest));
    } else {
      CollapseNewlinesWords(s[1..]);
      CollapsedCharWords(s, CollapseNewlines(s[1..]));
    }
  }

  lemma CollapsedRunWords(s: string, x: string)
    requires s != [] && s[0] == '\n'
    requires Words(x) == Words(s[1..][LeadingSpace(s[1..])..])
    ensures Words(" " + x) == Words(s) && !StartsInWord(s)
  {
    var rest := s[1..][LeadingSpace(s[1..])..];
    var run := NewlineRun(s);
    WordsAfterBlank(run, rest);
    WordsAfterBlank(" ", x);
  }

  /** The newline `s` starts with and the whitespace after it. */
  lemma NewlineRun(s: string) returns (run: string)
    requires s != [] && s[0] == '\n'
    ensures AllSpace(run) && s == run + s[1..][LeadingSpace(s[1..])..]
  {
    var n := LeadingSpace(s[1..]);
    run := [s[0]] + s[1..][..n];
    assert s == run + s[1..][n..];
  }


  lemma CollapsedCharWords(s: string, x: string)
    requires s != [] && s[0] != '\n'
    requires Words(x) == Words(s[1..]) && StartsInWord(x) == StartsInWord(s[1..])
    ensures Words([s[0]] + x) == Words(s) && StartsInWord([s[0]] + x) == StartsInWord(s)
  {
    assert s == [s[0]] + s[1..];
    WordsPrepend(s[0], x, s[1..]);
  }



  /** The text of a line of tokens. */
  function LineLength(line: seq<string>): nat {
    |Concat(line)|
  }

  /**
   * A block being wrapped: the finished lines, the tokens on the line being filled, and
   * `linelen`, the number of characters written on that line.
   */
  datatype Wrapped = Wrapped(done: seq<seq<string>>, current: seq<string>, linelen: int)
  {
    /** All lines, the one being filled last. */
    function Lines(): seq<seq<string>> {
      done + [current]
    }
  }

  /**
   * One step of `print_block`'s loop: token `w` starts a new line when it does not fit
   * after the `linelen` characters already on the current line; then it is dropped if
   * it is blank at the start of a line, and otherwise appended to the current line.
   */
  function Place(st: Wrapped, w: string, budget: int): Wrapped {
    var st' := if st.linelen + |w| > budget then NewLine(st) else st;
    if st'.linelen == 0 && AllSpace(w) then st' else Put(st', w)
  }

  /** The current line is finished and an empty one begins. */
  function NewLine(st: Wrapped): Wrapped {
    Wrapped(st.done + [st.current], [], 0)
  }

  /** Token `w` is written on the current line. */
  function Put(st: Wrapped, w: string): Wrapped {
    Wrapped(st.done, st.current + [w], st.linelen + |w|)
  }

  /** How `print_block` arranges the tokens into lines, for a budget of `budget` characters per line. */
  function Layout(words: seq<string>, budget: int): Wrapped {
    if words == [] then Wrapped([], [], 0)
    else Place(Layout(words[..|words| - 1], budget), words[|words| - 1], budget)
  }

  /** The text of finished lines: each is followed by a newline and the indentation of the next. */
  function DoneText(done: seq<seq<string>>): string {
    if done == [] then []
    else DoneText(done[..|done| - 1]) + Concat(done[|done| - 1]) + LineBreak
  }

  /** The text of a block as far as it is wrapped. */
  function WrappedText(st: Wrapped): string {
    DoneText(st.done) + Concat(st.current)
  }

  /** The budget `print_block` allows a line: the width, less one, less the first line's prefix. */
  function Budget(width: int, firstLine: string): int {
    width - 1 - |firstLine|
  }

  /** The tokens `print_block` sees: the message with newline runs collapsed, split around whitespace runs. */
  function Tokens(message: string): seq<string> {
    SplitSpaceRuns(CollapseNewlines(message))
  }

  /** What `print_block(message, first_line)` writes on a report of the given width. */
  function BlockText(width: int, firstLine: string, message: string): string {
    firstLine + WrappedText(Layout(Tokens(message), Budget(width, firstLine))) + "\n"
  }

  /** What `print_line` writes for the first `n` lines of a message: one block per line. */
  function LineBlocksText(width: int, lines: seq<string>, n: nat): string
    requires n <= |lines|
  {
    if n == 0 then []
    else LineBlocksText(width, lines, n - 1) + BlockText(width, Indent, lines[n - 1])
  }

  /** `"=" * n`. */
  function Repeat(c: char, n: nat): (r: string)
    ensures |r| == n
    ensures forall i :: 0 <= i < n ==> r[i] == c
  {
    if n == 0 then [] else Repeat(c, n - 1) + [c]
  }

  /** What `add_heading(heading)` writes: a blank line, the heading, and a rule of '=' as long as the heading. */
  function HeadingText(heading: string): string {
    "\n" + heading + "\n" + Repeat('=', |heading|) + "\n"
  }

  /**
   * `ConsoleOutput`'s width: the second field of `stty size` (its column count),
   * or 76 when the command fails or its output does not parse.
   */
  function ConsoleWidth(sttySize: Option<string>): (width: int)
    ensures sttySize.None? ==> width == DefaultConsoleWidth
    ensures sttySize.Some? && |Words(sttySize.value)| >= 2 && ParseInt(Words(sttySize.value)[1]).Ok? ==>
      width == ParseInt(Words(sttySize.value)[1]).value
    ensures !(sttySize.Some? && |Words(sttySize.value)| >= 2 && ParseInt(Words(sttySize.value)[1]).Ok?) ==>
      width == DefaultConsoleWidth
  {
    if sttySize.None? then DefaultConsoleWidth
    else
      var fields := Words(sttySize.value);
      if |fields| < 2 then DefaultConsoleWidth
      else match ParseInt(fields[1])
        case Ok(n) => n
        case Err(_) => DefaultConsoleWidth
  }

  /** A report being written to a text stream; `buf` is everything written so far. */
  class FileOutput {
    var buf: string
    var width: int

    constructor (initial: string, width: int)
      ensures buf == initial && this.width == width
    {
      buf := initial;
      this.width := width;
    }

    /** `print(text, end='', file=self.buf)`. */
    method Emit(text: string)
      modifies this
      ensures buf == old(buf) + text
      ensures width == old(width)
    {
      buf := buf + text;
    }

    method AddHeading(heading: string)
      modifies this
      ensures buf == old(buf) + HeadingText(heading)
      ensures width == old(width)
    {
      buf := buf + "\n";
      buf := buf + heading + "\n";
      buf := buf + Repeat('=', |heading|) + "\n";
    }

    method PrintOk(message: string)
      modifies this
      ensures buf == old(buf) + BlockText(width, OkPrefix, message)
      ensures width == old(width)
    {
      PrintBlock(message, OkPrefix);
    }

    method PrintError(message: string)
      modifies this
      ensures buf == old(buf) + BlockText(width, ErrorPrefix, message)
      ensures width == old(width)
    {
      PrintBlock(message, ErrorPrefix);
    }

    method PrintWarning(message: string)
      modifies this
      ensures buf == old(buf) + BlockText(width, WarningPrefix, message)
      ensures width == old(width)
    {
      PrintBlock(message, WarningPrefix);
    }

    /**
     * Writes `firstLine`, then the message's tokens: `linelen` counts the characters on
     * the current line; a token that would take it past the budget first ends the line,
     * and a blank token at the start of a line is dropped. Ends with a newline.
     */
    method PrintBlock(message: string, firstLine: string)
      modifies this
      ensures buf == old(buf) + BlockText(width, firstLine, message)
      ensures width == old(width)
    {
      buf := buf + firstLine;
      var words := Tokens(message);
      WriteWords(words, Budget(width, firstLine));
      buf := buf + "\n";
      var text := WrappedText(Layout(words, Budget(width, firstLine)));
      AppendAssoc(old(buf), firstLine, text);
      AppendAssoc(old(buf), firstLine + text, "\n");
    }

    /**
     * The loop of `print_block`: each word goes on the current line if it fits the budget,
     * otherwise after a line break and the indent; a blank word never starts a line.
     */
    method WriteWords(words: seq<string>, budget: int)
      modifies this
      ensures buf == old(buf) + WrappedText(Layout(words, budget))
      ensures width == old(width)
    {
      var linelen := 0;
      ghost var start := buf;
      ghost var st := Wrapped([], [], 0);
      for i := 0 to |words|
        invariant width == old(width)
        invariant st == Layout(words[..i], budget)
        invariant buf == start + WrappedText(st)
        invariant linelen == st.linelen
      {
        var w := words[i];
        LayoutStep(words, i, budget);
        StripBlank(w);
        ghost var before := st;
        if linelen + |w| > budget {
          buf := buf + "\n";
          buf := buf + Indent;
          linelen := 0;
          AppendBreak(start, WrappedText(st));
          TextOfBreak(st);
          st := NewLine(st);
        }
        if !(linelen == 0 && Strip(w) == []) {
          buf := buf + w;
          linelen := linelen + |w|;
          AppendAssoc(start, WrappedText(st), w);
          TextOfAppend(st, w);
          st := Put(st, w);
        }
        assert st == Place(before, w, budget);
      }
      assert words[..|words|] == words;
    }

    /** Writes each line of the message (split at '\n') as its own block. */
    method PrintLine(message: string)
      modifies this
      ensures var lines := SplitOn(message, '\n'); buf == old(buf) + LineBlocksText(width, lines, |lines|)
      ensures width == old(width)
    {
      var lines := SplitOn(message, '\n');
      for i := 0 to |lines|
        invariant width == old(width)
        invariant buf == old(buf) + LineBlocksText(width, lines, i)
      {
        PrintBlock(lines[i], Indent);
        AppendAssoc(old(buf), LineBlocksText(width, lines, i), BlockText(width, Indent, lines[i]));
      }
    }
  }

  lemma AppendBreak(a: string, b: string)
    ensures a + b + "\n" + Indent == a + (b + LineBreak)
  {
  }

  lemma LayoutStep(words: seq<string>, i: nat, budget: int)
    requires i < |words|
    ensures Layout(words[..i + 1], budget) == Place(Layout(words[..i], budget), words[i], budget)
  {
    assert words[..i + 1][..i] == words[..i];
  }

  lemma TextOfBreak(st: Wrapped)
    ensures WrappedText(NewLine(st)) == WrappedText(st) + LineBreak
  {
    assert (st.done + [st.current])[..|st.done|] == st.done;
  }

  lemma TextOfAppend(st: Wrapped, w: string)
    ensures WrappedText(Put(st, w)) == WrappedText(st) + w
  {
    ConcatAppend(st.current, w);
  }

  /** Breaking a line and indenting the next adds only whitespace. */
  lemma LineBreakIsBlank()
    ensures NonSpace(LineBreak) == []
  {
    NonSpaceOfAllSpace(LineBreak);
  }

  /** Wrapping loses and adds no visible character: only whitespace is dropped or inserted. */
  lemma {:induction false} LayoutKeepsText(words: seq<string>, budget: int)
    ensures NonSpace(WrappedText(Layout(words, budget))) == NonSpace(Concat(words))
  {
    if words != [] {
      var init := words[..|words| - 1];
      var w := words[|words| - 1];
      assert words == init + [w];
      LayoutKeepsText(init, budget);
      ConcatAppend(init, w);
      NonSpaceAppend(Concat(init), w);
      PlaceKeepsText(Layout(init, budget), w, budget);
    }
  }

  lemma PlaceKeepsText(st: Wrapped, w: string, budget: int)
    ensures NonSpace(WrappedText(Place(st, w, budget))) == NonSpace(WrappedText(st)) + NonSpace(w)
  {
    var st' := if st.linelen + |w| > budget then NewLine(st) else st;
    assert NonSpace(WrappedText(st')) == NonSpace(WrappedText(st)) by {
      if st.linelen + |w| > budget {
        TextOfBreak(st);
        LineBreakIsBlank();
        NonSpaceAppend(WrappedText(st), LineBreak);
      }
    }
    if st'.linelen == 0 && AllSpace(w) {
      NonSpaceOfAllSpace(w);
    } else {
      TextOfAppend(st', w);
      NonSpaceAppend(WrappedText(st'), w);
    }
  }

  /**
   * `print_block` writes every visible character of its first line and of its message,
   * in order, and nothing else visible: collapsing newlines, splitting, dropping blank
   * tokens and breaking lines only touch whitespace.
   */
  lemma BlockKeepsText(width: int, firstLine: string, message: string)
    ensures NonSpace(BlockText(width, firstLine, message)) == NonSpace(firstLine) + NonSpace(message)
  {
    var words := Tokens(message);
    var wrapped := WrappedText(Layout(words, Budget(width, firstLine)));
    SplitSpaceRunsSpec(CollapseNewlines(message));
    CollapseNewlinesSpec(message);
    LayoutKeepsText(words, Budget(width, firstLine));
    NonSpaceAppend(firstLine, wrapped);
    NonSpaceAppend(firstLine + wrapped, "\n");
    NonSpaceOfAllSpace("\n");
  }
  /**
   * Each token is a whitespace run, or a piece without whitespace that begins the sequence
   * or follows a whitespace run: what `re.split("(\s+)", s)` returns.
   */
  predicate Separated(ws: seq<string>) {
    forall i :: 0 <= i < |ws| ==> SeparatedPos(ws, i)
  }

  predicate SeparatedPos(ws: seq<string>, i: nat)
    requires i < |ws|
  {
    (ws[i] != [] && AllSpace(ws[i])) ||
    (NoSpace(ws[i]) && (i == 0 || (ws[i - 1] != [] && AllSpace(ws[i - 1]))))
  }

  lemma {:induction false} AlternatesSeparated(r: seq<string>)
    requires Alternates(r)
    ensures Separated(r)
    decreases |r|
  {
    if |r| > 1 {
      AlternatesSeparated(r[2..]);
      forall i | 2 <= i < |r|
        ensures SeparatedPos(r, i)
      {
        assert SeparatedPos(r[2..], i - 2);
        assert r[i] == r[2..][i - 2];
        if i > 2 {
          assert r[i - 1] == r[2..][i - 3];
        }
      }
    }
  }

  /** The text of finished lines ends with the indentation of the next line. */
  lemma DoneTextEndsBlank(done: seq<seq<string>>)
    ensures !EndsInWord(DoneText(done))
  {
  }

  /**
   * Before the token is placed: a line break adds only whitespace after the text, and an
   * empty current line means the text does not end inside a word.
   */
  lemma BeforePlace(st: Wrapped, w: string, budget: int)
    requires st.linelen == LineLength(st.current)
    ensures var st' := if st.linelen + |w| > budget then NewLine(st) else st;
      && Words(WrappedText(st')) == Words(WrappedText(st))
      && (st'.linelen == 0 ==> !EndsInWord(WrappedText(st')))
      && (EndsInWord(WrappedText(st')) ==> WrappedText(st') == WrappedText(st))
  {
    if st.linelen + |w| > budget {
      BreakKeepsWords(st);
    } else if st.linelen == 0 {
      EmptyLineEndsBlank(st);
    }
  }

  lemma BreakKeepsWords(st: Wrapped)
    ensures Words(WrappedText(NewLine(st))) == Words(WrappedText(st))
    ensures !EndsInWord(WrappedText(NewLine(st)))
  {
    TextOfBreak(st);
    LineBreakBlank();
    WordsAppendBlank2(WrappedText(st), LineBreak);
  }

  lemma LineBreakBlank()
    ensures LineBreak != [] && AllSpace(LineBreak)
  {
  }

  lemma EmptyLineEndsBlank(st: Wrapped)
    requires st.linelen == LineLength(st.current) == 0
    ensures !EndsInWord(WrappedText(st))
  {
    assert WrappedText(st) == DoneText(st.done) + [];
    DoneTextEndsBlank(st.done);
  }


  /**
   * One token placed: if the text so far has the words of the tokens so far, and ends inside
   * a word exactly when they do, the same holds with the token added. A blank token dropped at
   * a line start, or a line break, only adds or removes whitespace next to whitespace.
   */
  lemma PlaceKeepsWords(st: Wrapped, w: string, budget: int, t: string)
    requires st.linelen == LineLength(st.current)
    requires Words(WrappedText(st)) == Words(t) && EndsInWord(WrappedText(st)) == EndsInWord(t)
    requires (w != [] && AllSpace(w)) || (NoSpace(w) && !EndsInWord(t))
    ensures Words(WrappedText(Place(st, w, budget))) == Words(t + w)
    ensures EndsInWord(WrappedText(Place(st, w, budget))) == EndsInWord(t + w)
  {
    var st' := if st.linelen + |w| > budget then NewLine(st) else st;
    BeforePlace(st, w, budget);
    if st'.linelen == 0 && AllSpace(w) {
      PlaceDrops(st, w, budget, t);
    } else {
      PlacePuts(st, w, budget, t);
    }
  }

  lemma PlaceDrops(st: Wrapped, w: string, budget: int, t: string)
    requires var st' := if st.linelen + |w| > budget then NewLine(st) else st;
      && st'.linelen == 0 && AllSpace(w)
      && Words(WrappedText(st')) == Words(t) && !EndsInWord(WrappedText(st'))
      && (w != [] || !EndsInWord(t))
    ensures Words(WrappedText(Place(st, w, budget))) == Words(t + w)
    ensures EndsInWord(WrappedText(Place(st, w, budget))) == EndsInWord(t + w)
  {
    var st' := if st.linelen + |w| > budget then NewLine(st) else st;
    assert Place(st, w, budget) == st';
    WordsDropBlank(WrappedText(st'), t, w);
  }

  lemma PlacePuts(st: Wrapped, w: string, budget: int, t: string)
    requires var st' := if st.linelen + |w| > budget then NewLine(st) else st;
      && !(st'.linelen == 0 && AllSpace(w))
      && Words(WrappedText(st')) == Words(t) && (EndsInWord(WrappedText(st')) ==> EndsInWord(t))
      && ((w != [] && AllSpace(w)) || (NoSpace(w) && !EndsInWord(t)))
    ensures Words(WrappedText(Place(st, w, budget))) == Words(t + w)
    ensures EndsInWord(WrappedText(Place(st, w, budget))) == EndsInWord(t + w)
  {
    var st' := if st.linelen + |w| > budget then NewLine(st) else st;
    assert Place(st, w, budget) == Put(st', w);
    PutKeepsWords(st', w, t);
  }


  lemma PutKeepsWords(st: Wrapped, w: string, t: string)
    requires Words(WrappedText(st)) == Words(t) && (EndsInWord(WrappedText(st)) ==> EndsInWord(t))
    requires (w != [] && AllSpace(w)) || (NoSpace(w) && !EndsInWord(t))
    ensures Words(WrappedText(Put(st, w))) == Words(t + w)
    ensures EndsInWord(WrappedText(Put(st, w))) == EndsInWord(t + w)
  {
    TextOfAppend(st, w);
    WordsAppendAlike(WrappedText(st), t, w);
  }


  lemma SeparatedPrefix(ws: seq<string>, n: nat)
    requires Separated(ws) && n <= |ws|
    ensures Separated(ws[..n])
  {
    var init := ws[..n];
    forall i | 0 <= i < n
      ensures SeparatedPos(init, i)
    {
      assert SeparatedPos(ws, i);
      assert init[i] == ws[i];
      if i > 0 {
        assert init[i - 1] == ws[i - 1];
      }
    }
  }


  /** A piece without whitespace never follows text that ends inside a word. */
  lemma SeparatedLast(ws: seq<string>, n: nat)
    requires Separated(ws) && n < |ws|
    ensures (ws[n] != [] && AllSpace(ws[n])) || (NoSpace(ws[n]) && !EndsInWord(Concat(ws[..n])))
  {
    assert SeparatedPos(ws, n);
    if n == 0 {
      assert ws[..n] == [];
    } else if !(ws[n] != [] && AllSpace(ws[n])) {
      var p := ws[n - 1];
      assert ws[..n] == ws[..n - 1] + [p];
      ConcatAppend(ws[..n - 1], p);
      var c := Concat(ws[..n]);
      assert c[|c| - 1] == p[|p| - 1];
    }
  }


  /** Laying out separated tokens keeps their words, and whether the text so far ends inside a word. */
  lemma {:induction false} LayoutKeepsWords(ws: seq<string>, budget: int)
    requires Separated(ws)
    ensures Words(WrappedText(Layout(ws, budget))) == Words(Concat(ws))
    ensures EndsInWord(WrappedText(Layout(ws, budget))) == EndsInWord(Concat(ws))
  {
    if ws != [] {
      var n := |ws| - 1;
      var init, w := ws[..n], ws[n];
      assert ws == init + [w];
      SeparatedPrefix(ws, n);
      LayoutKeepsWords(init, budget);
      LayoutWellWrapped(init, budget);
      ConcatAppend(init, w);
      SeparatedLast(ws, n);
      PlaceKeepsWords(Layout(init, budget), w, budget, Concat(init));
    }
  }

  /** Wrapping a message splits none of its words and joins none: `split()` sees the same words. */
  lemma MessageWordsKept(message: string, budget: int)
    ensures Words(WrappedText(Layout(Tokens(message), budget))) == Words(message)
  {
    var c := CollapseNewlines(message);
    SplitSpaceRunsSpec(c);
    AlternatesSeparated(SplitSpaceRuns(c));
    LayoutKeepsWords(SplitSpaceRuns(c), budget);
    CollapseNewlinesWords(message);
  }
  /**
   * `print_block` writes the words of its first line and then those of its message, each
   * word whole: as long as the first line does not end inside a word, as none of the
   * prefixes the reports use does, `split()` of the block is the first line's words followed
   * by the message's.
   */
  lemma BlockKeepsWords(width: int, firstLine: string, message: string)
    requires !EndsInWord(firstLine)
    ensures Words(BlockText(width, firstLine, message)) == Words(firstLine) + Words(message)
  {
    MessageWordsKept(message, Budget(width, firstLine));
    WordsFramed(firstLine, WrappedText(Layout(Tokens(message), Budget(width, firstLine))));
  }

  /** None of the prefixes ends inside a word. */
  lemma PrefixesEndBlank()
    ensures !EndsInWord(OkPrefix) && !EndsInWord(ErrorPrefix) && !EndsInWord(WarningPrefix)
    ensures !EndsInWord(Indent)
  {
  }



  /**
   * A line of a wrapped block is well formed when it fits the budget or holds a single
   * token too long to share a line, and it does not begin with a whitespace token.
   */
  predicate LineOk(line: seq<string>, budget: int) {
    (LineLength(line) <= budget || |line| <= 1) && (line != [] ==> !AllSpace(line[0]))
  }

  /** Every line of the block is well formed, and `linelen` is the length of the current line. */
  predicate WellWrapped(st: Wrapped, budget: int) {
    st.linelen == LineLength(st.current) &&
    LineOk(st.current, budget) &&
    forall i :: 0 <= i < |st.done| ==> LineOk(st.done[i], budget)
  }

  /** The greedy layout never lets a line overflow unless a single token is too long, and never starts a line with whitespace. */
  lemma {:induction false} LayoutWellWrapped(words: seq<string>, budget: int)
    ensures WellWrapped(Layout(words, budget), budget)
  {
    if words != [] {
      LayoutWellWrapped(words[..|words| - 1], budget);
      PlaceWellWrapped(Layout(words[..|words| - 1], budget), words[|words| - 1], budget);
    }
  }

  lemma PlaceWellWrapped(st: Wrapped, w: string, budget: int)
    requires WellWrapped(st, budget)
    ensures WellWrapped(Place(st, w, budget), budget)
  {
    var broke := st.linelen + |w| > budget;
    var st' := if broke then NewLine(st) else st;
    assert WellWrapped(st', budget) by {
      if broke {
        var d := st.done + [st.current];
        forall i | 0 <= i < |d|
          ensures LineOk(d[i], budget)
        {
          if i < |st.done| {
            assert d[i] == st.done[i];
          }
        }
      }
    }
    if !(st'.linelen == 0 && AllSpace(w)) {
      ConcatAppend(st'.current, w);
      var line := st'.current + [w];
      assert LineLength(line) == st'.linelen + |w|;
      if st'.current == [] {
        assert line[0] == w;
      } else {
        assert line[0] == st'.current[0];
      }
    }
  }
}
