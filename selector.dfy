/** The `Select` class: the selection state machine, its screen output
    and its exits. The terminal is abstracted to three flags and a log of
    what is sent to standard output. */
module Selector {
  import opened Wrappers
  import opened Render
  import Keys
  import Navigation
  import opened Templates

  /** One operation on standard output: a write of text, or
      `readline.cursorTo(stdout, 0, row)` (the column is always 0). */
  datatype Output = Write(text: string) | CursorTo(row: int)

  /** `hideCursor` and `showCursor` write these. */
  const HideCursor: string := "\U{1B}[?25l"
  const ShowCursor: string := "\U{1B}[?25h"

  /** The rendered form of an option: the pointer, a space, the label and
      a line break. */
  function Decorate(pointer: string, text: string): (line: string) {
    pointer + " " + text + "\n"
  }

  /** The option lines `start` writes: the first one highlighted, every
      other one plain. */
  function OptionLines(lines: seq<string>, c: Color): (w: seq<Output>)
    ensures |w| == |lines|
  {
    seq(|lines|, i requires 0 <= i < |lines| =>
      Write(if i == 0 then Highlight(lines[i], c) else lines[i]))
  }

  /** Only the first option line goes through `color`, and each line is
      written as it is, without a second decoration. */
  lemma OptionLinesText(lines: seq<string>, c: Color, i: int)
    requires 0 <= i < |lines|
    ensures i == 0 ==> Strip(OptionLines(lines, c)[i].text, c) == Some(lines[i])
    ensures i > 0 ==> OptionLines(lines, c)[i].text == lines[i]
  {
  }

  class Select {
    const question: string
    /** `opts.options`: the caller's array, decorated in place by `Start`. */
    const options: array<string>
    const answers: seq<string>
    const pointer: string
    const color: Color

    /** `cursorLocs.y`: the 1-based row of the highlighted option. */
    var y: int
    /** The 0-based index of the answer `Enter` hands on. */
    var input: int

    /** Terminal state: raw mode on stdin, stdin paused, cursor shown. */
    var raw: bool
    var paused: bool
    var cursorVisible: bool

    /** Everything written to stdout, in order. */
    var out: seq<Output>
    /** Every answer handed to `configs`, in order. */
    var resolved: seq<string>

    /** The steady state in which the arrow keys are handled: at least one
        option, and the row and the index inside the list. */
    predicate Ready()
      reads this
    {
      1 <= options.Length && 1 <= y <= options.Length && 0 <= input < options.Length
    }

    /** The two repaints of an arrow key: the old row plain, then the new
        row highlighted. Option `i` sits on terminal row `i + 2`. */
    function Repaint(from: int, to: int): (w: seq<Output>)
      reads this, options
      requires 1 <= from <= options.Length && 1 <= to <= options.Length
    {
      [CursorTo(from + 1), Write(options[from - 1]),
       CursorTo(to + 1), Write(Highlight(options[to - 1], color))]
    }

    constructor (question: string, options: array<string>, answers: seq<string>,
                 pointer: string, color: Color)
      ensures this.question == question && this.options == options
      ensures this.answers == answers && this.pointer == pointer && this.color == color
      ensures y == 0 && input == 0
      ensures !raw && paused && cursorVisible
      ensures out == [] && resolved == []
    {
      this.question := question;
      this.options := options;
      this.answers := answers;
      this.pointer := pointer;
      this.color := color;
      y, input := 0, 0;
      raw, paused, cursorVisible := false, true, true;
      out, resolved := [], [];
    }

    /** The default options of the constructor: an empty menu with the
        pointer `>` in blue. */
    constructor Default()
      ensures question == "" && options.Length == 0 && answers == []
      ensures pointer == ">" && color == Blue
      ensures y == 0 && input == 0
      ensures !raw && paused && cursorVisible
      ensures out == [] && resolved == []
    {
      question := "";
      options := new string[0];
      answers := [];
      pointer := ">";
      color := Blue;
      y, input := 0, 0;
      raw, paused, cursorVisible := false, true, true;
      out, resolved := [], [];
    }

    /** `start`: writes the question, decorates every option in place and
        writes it (the first one highlighted), then enters raw mode and
        hides the cursor. The row ends on the LAST option, while the
        index is the first. */
    method Start()
      modifies this, options
      ensures forall i :: 0 <= i < options.Length ==>
        options[i] == Decorate(pointer, old(options[i]))
      ensures out == old(out) + [Write(question + "\n")]
                   + OptionLines(options[..], color) + [Write(HideCursor)]
      ensures options.Length >= 1 ==> y == options.Length && input == 0 && Ready()
      ensures options.Length == 0 ==> y == old(y) && input == old(input)
      ensures raw && !paused && !cursorVisible
      ensures resolved == old(resolved)
    {
      out := out + [Write(question + "\n")];
      ghost var head := out;
      for opt := 0 to options.Length
        invariant forall i :: 0 <= i < opt ==> options[i] == Decorate(pointer, old(options[i]))
        invariant forall i :: opt <= i < options.Length ==> options[i] == old(options[i])
        invariant out == head + OptionLines(options[..opt], color)
        invariant opt == 0 ==> y == old(y) && input == old(input)
        invariant opt > 0 ==> y == opt && input == 0
        invariant raw == old(raw) && paused == old(paused) && cursorVisible == old(cursorVisible)
        invariant resolved == old(resolved)
      {
        options[opt] := pointer + " " + options[opt];
        options[opt] := options[opt] + "\n";
        var line: Output;
        if opt == 0 {
          input := 0;
          line := Write(Highlight(options[opt], color));
        } else {
          line := Write(options[opt]);
        }
        assert OptionLines(options[..opt + 1], color)
            == OptionLines(options[..opt], color) + [line];
        out := out + [line];
        y := opt + 1;
      }
      assert options[..options.Length] == options[..];
      raw := true;
      paused := false;
      out := out + [Write(HideCursor)];
      cursorVisible := false;
    }

    /** `upArrow`: repaints the current row plain, moves one row up
        (from the first row to the last) and highlights the new row. */
    method Up()
      requires Ready()
      modifies this
      ensures Ready()
      ensures y == Navigation.UpRow(old(y), options.Length) && input == y - 1
      ensures out == old(out) + Repaint(old(y), y)
      ensures raw == old(raw) && paused == old(paused) && cursorVisible == old(cursorVisible)
      ensures resolved == old(resolved)
    {
      var row := y;
      out := out + [CursorTo(row + 1), Write(options[row - 1])];
      if y == 1 {
        y := options.Length;
      } else {
        y := y - 1;
      }
      row := y;
      out := out + [CursorTo(row + 1), Write(Highlight(options[row - 1], color))];
      input := row - 1;
    }

    /** `downArrow`: repaints the current row plain, moves one row down
        (from the last row to the first) and highlights the new row. */
    method Down()
      requires Ready()
      modifies this
      ensures Ready()
      ensures y == Navigation.DownRow(old(y), options.Length) && input == y - 1
      ensures out == old(out) + Repaint(old(y), y)
      ensures raw == old(raw) && paused == old(paused) && cursorVisible == old(cursorVisible)
      ensures resolved == old(resolved)
    {
      var row := y;
      out := out + [CursorTo(row + 1), Write(options[row - 1])];
      if y == options.Length {
        y := 1;
      } else {
        y := y + 1;
      }
      row := y;
      out := out + [CursorTo(row + 1), Write(Highlight(options[row - 1], color))];
      input := row - 1;
    }

    /** `enter`: leaves raw mode, pauses stdin, shows the cursor, moves
        below the last option and hands `answers[input]` to `configs`,
        whose match in the directory listing `files` is returned. */
    method Enter(files: seq<Entry>) returns (template: Option<nat>)
      requires 0 <= input < |answers|
      modifies this
      ensures y == old(y) && input == old(input)
      ensures !raw && paused && cursorVisible
      ensures out == old(out) + [Write(ShowCursor), CursorTo(options.Length + 1)]
      ensures resolved == old(resolved) + [answers[input]]
      ensures IsFirstMatch(files, answers[input], template)
    {
      raw := false;
      paused := true;
      out := out + [Write(ShowCursor)];
      cursorVisible := true;
      out := out + [CursorTo(options.Length + 1)];
      var answer := answers[input];
      resolved := resolved + [answer];
      template := Configs(answer, files);
    }

    /** `ctrlc`: the same terminal restore as `enter`, and nothing is
        resolved. */
    method CtrlC()
      modifies this
      ensures !raw && paused && cursorVisible
      ensures out == old(out) + [Write(ShowCursor)]
      ensures resolved == old(resolved)
      ensures y == old(y) && input == old(input)
    {
      raw := false;
      paused := true;
      out := out + [Write(ShowCursor)];
      cursorVisible := true;
    }

    /** The listener `pn(this)` registers: classifies one chunk and runs
        the matching handler; any other chunk changes nothing. */
    method Dispatch(chunk: string, files: seq<Entry>) returns (template: Option<nat>)
      requires Keys.Classify(chunk) == Keys.Up || Keys.Classify(chunk) == Keys.Down ==> Ready()
      requires Keys.Classify(chunk) == Keys.Confirm ==> 0 <= input < |answers|
      modifies this
      ensures Keys.Classify(chunk) != Keys.Confirm ==> template == None
      ensures Keys.Classify(chunk) == Keys.Confirm ==>
        y == old(y) && input == old(input) && !raw && paused && cursorVisible &&
        out == old(out) + [Write(ShowCursor), CursorTo(options.Length + 1)] &&
        resolved == old(resolved) + [answers[input]] &&
        IsFirstMatch(files, answers[input], template)
      ensures Keys.Classify(chunk) == Keys.Cancel ==>
        !raw && paused && cursorVisible && out == old(out) + [Write(ShowCursor)] &&
        resolved == old(resolved) && y == old(y) && input == old(input)
      ensures Keys.Classify(chunk) == Keys.Up ==>
        Ready() && y == Navigation.UpRow(old(y), options.Length) && input == y - 1 &&
        out == old(out) + Repaint(old(y), y) && resolved == old(resolved)
      ensures Keys.Classify(chunk) == Keys.Down ==>
        Ready() && y == Navigation.DownRow(old(y), options.Length) && input == y - 1 &&
        out == old(out) + Repaint(old(y), y) && resolved == old(resolved)
      ensures Keys.Classify(chunk) == Keys.Ignore ==> unchanged(this)
    {
      template := None;
      match Keys.Classify(chunk)
      case Confirm =>
        template := Enter(files);
      case Cancel =>
        CtrlC();
      case Up =>
        Up();
      case Down =>
        Down();
      case Ignore =>
    }
  }

  /** The menu the module builds (Node, React, React Native): after
      `start`, one down-arrow and a return resolve to "node", not
      "react", because `start` leaves the row on the last option and the
      first down-arrow wraps back to the first. */
  method DownThenConfirm(files: seq<Entry>) returns (resolved: seq<string>, template: Option<nat>)
    ensures resolved == ["node"]
    ensures IsFirstMatch(files, "node", template)
  {
    var options := new string[3]["Node", "React", "React Native"];
    var s := new Select("Choose type of configuration ?", options,
                        ["node", "react", "react_native"], "->", Blue);
    s.Start();
    var none := s.Dispatch("\U{1B}[B", files);
    assert s.y == 1 && s.input == 0;
    template := s.Dispatch("\r", files);
    resolved := s.resolved;
  }

  /** On a three-option menu, the first up-arrow after `start` selects
      the middle option (index 1), not the last. */
  method UpAfterStart() returns (index: int, row: int)
    ensures index == 1 && row == 2
  {
    var options := new string[3]["a", "b", "c"];
    var s := new Select("?", options, ["a", "b", "c"], ">", Blue);
    s.Start();
    s.Up();
    index, row := s.input, s.y;
  }
}
