/** The renderer: `Select.color` wraps a line of text in an SGR colour
    escape pair (ECMA-48, section 8.3.117). */
module Render {
  import opened Wrappers

  /** The six colour names the menu accepts. */
  datatype Color = Yellow | Blue | Green | Cyan | Red | Magenta

  /** The escape character that opens every control sequence. */
  const Esc: char := '\U{1B}'

  /** The SGR start code of each colour, as the source's table has it:
      note that cyan is 35 and magenta is 36. */
  function StartCode(c: Color): (code: nat)
    ensures 31 <= code <= 36
  {
    match c
    case Yellow => 33
    case Blue => 34
    case Green => 32
    case Cyan => 35
    case Red => 31
    case Magenta => 36
  }

  /** The table gives every colour the same stop code. */
  const StopCode: nat := 89

  /** The decimal text of a two-digit number, as JavaScript's string
      concatenation prints it. */
  function TwoDigits(n: nat): (r: string)
    requires 10 <= n < 100
    ensures |r| == 2 && '0' <= r[0] <= '9' && '0' <= r[1] <= '9'
    ensures (r[0] as int - '0' as int) * 10 + (r[1] as int - '0' as int) == n
  {
    [('0' as int + n / 10) as char, ('0' as int + n % 10) as char]
  }

  /** `'\x1b[' + code + 'm'` */
  function Prefix(c: Color): (p: string) {
    [Esc, '['] + TwoDigits(StartCode(c)) + ['m']
  }

  /** `'\x1b[' + 89 + 'm\x1b[0m'` */
  function Suffix(): (q: string) {
    [Esc, '['] + TwoDigits(StopCode) + ['m', Esc, '[', '0', 'm']
  }

  /** `color(str, colorName)`: the text between the colour's start
      sequence and the common stop sequence. */
  function Highlight(s: string, c: Color): (r: string) {
    Prefix(c) + s + Suffix()
  }

  /** Removes the colour's start sequence and the stop sequence, if the
      text carries both. */
  function Strip(t: string, c: Color): (r: Option<string>)
    ensures r.Some? ==> |r.value| + |Prefix(c)| + |Suffix()| == |t|
  {
    var p, q := |Prefix(c)|, |Suffix()|;
    if p + q <= |t| && t[..p] == Prefix(c) && t[|t| - q..] == Suffix()
    then Some(t[p..|t| - q])
    else None
  }

  /** The sequences the menu actually sends for its configured colour,
      blue, around an option line. */
  lemma BlueLine()
    ensures Highlight("-> Node\n", Blue)
         == "\U{1B}[34m-> Node\n\U{1B}[89m\U{1B}[0m"
  {
  }

  /** The two codes sent by different colours are different. */
  lemma StartCodeInjective(c: Color, d: Color)
    ensures StartCode(c) == StartCode(d) ==> c == d
  {
  }

  /** The prefixes of two colours differ, and have the same length. */
  lemma PrefixInjective(c: Color, d: Color)
    ensures |Prefix(c)| == |Prefix(d)| == 5
    ensures Prefix(c) == Prefix(d) ==> c == d
  {
    if Prefix(c) == Prefix(d) {
      assert Prefix(c)[2..4] == TwoDigits(StartCode(c));
      assert Prefix(d)[2..4] == TwoDigits(StartCode(d));
      StartCodeInjective(c, d);
    }
  }

  /** Stripping a highlighted text gives the text back. */
  lemma StripHighlight(s: string, c: Color)
    ensures Strip(Highlight(s, c), c) == Some(s)
  {
  }

  /** Whatever strips to `s` is exactly the highlighted `s`: the strip
      round trip in the other direction. */
  lemma HighlightStrip(t: string, s: string, c: Color)
    requires Strip(t, c) == Some(s)
    ensures Highlight(s, c) == t
  {
  }

  /** `color` is injective: equal outputs come from equal texts in equal
      colours. */
  lemma HighlightInjective(s: string, c: Color, t: string, d: Color)
    requires Highlight(s, c) == Highlight(t, d)
    ensures s == t && c == d
  {
    PrefixInjective(c, d);
    var h := Highlight(s, c);
    assert Prefix(c) == h[..5] == Prefix(d);
    StripHighlight(s, c);
    StripHighlight(t, d);
  }

  /** Highlighting distributes over concatenation: the highlighted
      `s + u` is the highlighted `s` with `u` put in front of its stop
      sequence. */
  lemma HighlightConcat(s: string, u: string, c: Color)
    ensures Highlight(s + u, c)
         == Highlight(s, c)[..|Prefix(c)| + |s|] + u + Suffix()
  {
  }
}
