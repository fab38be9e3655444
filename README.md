# Select: a single-choice terminal menu, in Dafny

This project models the `Select` class of `src/index.ts`. It is a small
interactive menu. It prints a question and a list of options, highlights
one option, moves the highlight with the arrow keys (wrapping at both
ends), and exits on return/ctrl-D (confirm) or ctrl-C (cancel). On
confirm it hands the chosen answer to `configs`. `configs` picks the
first template file in a directory whose name, up to its first dot, is
that answer.

Modules, one per piece of the class:

- `Render` (`render.dfy`): `color`, the SGR colour wrapper (ECMA-48,
  section 8.3.117), with its colour table, strip round trip and
  injectivity.
- `Keys` (`keys.dfy`): the `switch` in `pn` that classifies one input
  chunk by exact match.
- `Navigation` (`navigation.dfy`): the wrap rules of `upArrow` and
  `downArrow` on the 1-based row, with their modular closed forms,
  inverse laws and cycle laws.
- `Templates` (`templates.dfy`): the matching loop of `configs` over an
  abstract directory listing.
- `Selector` (`selector.dfy`): the class `Select` itself. It has the
  fields `y` (`cursorLocs.y`) and `input`, the option array that `Start`
  decorates in place, three terminal flags (raw mode, stdin paused,
  cursor shown), a log `out` of everything written to stdout, and a log
  `resolved` of the answers handed to `configs`.
- `Wrappers` (`wrappers.dfy`): the `Option` type.

Some behaviours of the code are easy to misread. The model keeps them as
they are:

- `start` sets `cursorLocs.y = opt + 1` on every pass of its loop. So
  with n options it ends with `y == n` and `input == 0`, while the line
  shown highlighted is the first one.
- The first down-arrow after `start` therefore wraps to row 1 and keeps
  index 0. On the shipped menu (Node, React, React Native), down-arrow
  then return resolves to `"node"` (`Selector.DownThenConfirm`).
- On three options, the first up-arrow after `start` moves to row 2 and
  selects index 1 (`Selector.UpAfterStart`).
- Nothing checks that `options` and `answers` have the same length.
  `enter` indexes `answers[input]`, so the model requires
  `input < |answers|` there. The source also runs when that index is out
  of range: `answers[input]` is then `undefined`, `configs(undefined)`
  matches no entry, and the terminal has already been restored. The
  shipped instance has three options and three answers, so it never
  reaches that case.
- The colour table maps cyan to 35 and magenta to 36. This is the
  reverse of the standard SGR assignment, and the model keeps it. Every
  colour has stop code 89, followed by `ESC[0m`.
- `color` has its own default colour, yellow, but every call passes the
  configured colour, so that default is never used and is not modelled.
  The constructor's default options use blue (`Selector.Select.Default`).
- The terminal is not restored on a thrown error. Only `enter` and
  `ctrlc` restore it.

## Model

| member | source | states |
|---|---|---|
| `Render.StartCode` | src/index.ts:114-121 | every colour's start code is an SGR foreground code in 31..36 (yellow 33, blue 34, green 32, cyan 35, red 31, magenta 36) |
| `Render.TwoDigits` | src/index.ts:124-125 | the code is printed as two decimal digits whose value is the code |
| `Render.BlueLine` | src/index.ts:113-127 | the shipped menu's first line, `-> Node` and a line break, in blue, is exactly `ESC[34m` + that line + `ESC[89m ESC[0m` |
| `Render.StartCodeInjective` | src/index.ts:114-121 | different colours have different start codes |
| `Render.PrefixInjective` | src/index.ts:124 | all start sequences have length 5, and different colours give different start sequences |
| `Render.StripHighlight` | src/index.ts:123-126 | removing the start and stop sequences from a highlighted text gives the text back |
| `Render.HighlightStrip` | src/index.ts:123-126 | any string that strips to `s` is exactly the highlighted `s` (the round trip in the other direction) |
| `Render.HighlightInjective` | src/index.ts:113-127 | equal highlighted outputs come from equal texts and equal colours |
| `Render.HighlightConcat` | src/index.ts:124-126 | highlighting `s + u` puts `u` between the highlighted `s`'s text and its stop sequence |
| `Keys.Classify` | src/index.ts:66-77 | a chunk is classified as a command only if it is one of that command's encodings (EOT, CR, LF: confirm; ETX: cancel; `ESC[A`: up; `ESC[B`: down), and is ignored exactly when it is none of them |
| `Keys.EncodingsDisjoint` | src/index.ts:66-77 | no chunk stands for two commands |
| `Keys.ClassifyExact` | src/index.ts:66-77 | for every command, a chunk is classified as it if and only if the chunk is one of its encodings |
| `Keys.NoReassembly` | src/index.ts:65-78 | partial cursor-key sequences, and two keys in one chunk, are ignored: matching is per whole chunk |
| `Navigation.UpRow` | src/index.ts:85-90 | up keeps the row in 1..n and moves the 0-based index one back modulo n (from the first row to the last) |
| `Navigation.DownRow` | src/index.ts:101-106 | down keeps the row in 1..n and moves the 0-based index one on modulo n (from the last row to the first) |
| `Navigation.DownUndoesUp` | src/index.ts:81-111 | a down-arrow after an up-arrow returns to the starting row |
| `Navigation.UpUndoesDown` | src/index.ts:81-111 | an up-arrow after a down-arrow returns to the starting row |
| `Navigation.UpRows` | src/index.ts:81-95 | any number of up-arrows keeps the row in 1..n |
| `Navigation.DownRows` | src/index.ts:97-111 | any number of down-arrows keeps the row in 1..n |
| `Navigation.UpRowsModular` | src/index.ts:85-94 | after k up-arrows the index is `(y - 1 - k) mod n` |
| `Navigation.DownRowsModular` | src/index.ts:101-110 | after k down-arrows the index is `(y - 1 + k) mod n` |
| `Navigation.UpCycle` | src/index.ts:85-90 | n up-arrows return to the starting row |
| `Navigation.DownCycle` | src/index.ts:101-106 | n down-arrows return to the starting row |
| `Navigation.UpsThenDowns` | src/index.ts:81-111 | k up-arrows then m down-arrows leave the index at `(y - 1 - k + m) mod n` |
| `Templates.Stem` | src/index.ts:168 | the stem has no dot, is a prefix of the name, and is followed in the name by a dot unless it is the whole name |
| `Templates.StemUnique` | src/index.ts:168 | those three facts determine the stem: any string with them is the stem |
| `Templates.Configs` | src/index.ts:165-186 | the loop returns the first entry that is a file with stem equal to the answer, skipping non-files, or nothing when no entry matches |
| `Templates.FirstMatchUnique` | src/index.ts:165-186 | the first match is unique, so the result of the loop is determined |
| `Templates.ReactTemplate` | src/index.ts:165-180 | with `node.json`, a directory `react` and `react.json`, the answer `react` picks `react.json` |
| `Selector.OptionLines` | src/index.ts:40-51 | `start` writes one line per option |
| `Selector.OptionLinesText` | src/index.ts:44-49 | only the first option line is written through `color` (stripping it gives the line back), and the others are written as they are |
| `Selector.Select.constructor` | src/index.ts:23-36 | keeps the options, starts with row 0 and index 0, and empty logs |
| `Selector.Select.Default` | src/index.ts:24-30 | the default options are an empty menu with pointer `>` in blue |
| `Selector.Select.Start` | src/index.ts:38-58 | each option is rewritten in place to `pointer + ' ' + old + '\n'`; the writes are the question, the option lines (first highlighted) and the hide-cursor sequence; with n ≥ 1 options it ends with row n, index 0 and the arrow invariant; raw mode is on, stdin is resumed and the cursor is hidden |
| `Selector.Select.Up` | src/index.ts:81-95 | keeps `1 ≤ y ≤ n`, moves the row by the up rule, sets `input = y - 1`, and writes exactly the old row plain then the new row highlighted; nothing else changes |
| `Selector.Select.Down` | src/index.ts:97-111 | keeps `1 ≤ y ≤ n`, moves the row by the down rule, sets `input = y - 1`, and writes exactly the old row plain then the new row highlighted; nothing else changes |
| `Selector.Select.Enter` | src/index.ts:129-137 | raw mode off, stdin paused, cursor shown, cursor moved to row n + 1; exactly `answers[input]` is handed on, once; the returned template is the first match for it |
| `Selector.Select.CtrlC` | src/index.ts:139-144 | raw mode off, stdin paused, cursor shown, and no answer is handed on |
| `Selector.Select.Dispatch` | src/index.ts:64-79 | confirm hands on `answers[input]` and restores the terminal, cancel restores it and hands on nothing, up and down move and repaint as `Up` and `Down` do, and an unrecognised chunk changes no state and writes nothing |
| `Selector.DownThenConfirm` | src/index.ts:193-199 | on the shipped menu, `start`, a down-arrow and a return resolve to `"node"` |
| `Selector.UpAfterStart` | src/index.ts:40-94 | on three options, the first up-arrow after `start` selects index 1 on row 2 |

## Left out

- Terminal and stream I/O are not modelled as calls. `setRawMode`, `resume`/`pause` and hide/show cursor become the flags `raw`, `paused` and `cursorVisible`. Writes to stdout and `readline.cursorTo` become entries of the `out` log.
- `setEncoding('utf-8')` is not modelled. Chunks are already strings in the model.
- Registering the `data` listener and `removeListener` are not modelled. The removal passes a different function object, so it removes nothing. Only the `paused` flag records that input stops.
- `cursorLocs.x` is not modelled. It is never read.
- The file-system effects of `configs` are not modelled: resolving paths, reading the directory, deleting and writing `tsconfig.json`, and wrapping errors with `JSON.stringify`. The directory listing is a parameter, and the model returns the index of the template that would be copied.
- The module-level instance and its top-level `start()` call are used only as data in `Selector.DownThenConfirm`.
- Errors thrown by the terminal or the file system are not modelled. Nothing restores the terminal on those paths.
- The terminal's state before `start` is not part of the class. The constructors assume a terminal that is not in raw mode, with stdin paused and the cursor shown; the source constructor does not touch the terminal.
