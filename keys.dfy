/** The input dispatcher: the `switch` inside `Select.pn` that turns one
    chunk read from the raw terminal into one command. */
module Keys {

  /** What a chunk asks the menu to do; `Ignore` is the `switch` falling
      through without a matching case. */
  datatype Command = Confirm | Cancel | Up | Down | Ignore

  /** The chunks that stand for each command: ctrl-D (end of
      transmission), carriage return and line feed confirm, ctrl-C (end of
      text) cancels, and the two cursor-key sequences move. */
  function Encodings(k: Command): (chunks: set<string>) {
    match k
    case Confirm => {"\U{4}", "\r", "\n"}
    case Cancel => {"\U{3}"}
    case Up => {"\U{1B}[A"}
    case Down => {"\U{1B}[B"}
    case Ignore => {}
  }

  /** The `switch (command)` of `pn`: an exact match of the whole chunk
      against the table, in the order of its cases. */
  function Classify(chunk: string): (k: Command)
    ensures k != Ignore ==> chunk in Encodings(k)
    ensures k == Ignore ==> forall c :: chunk !in Encodings(c)
  {
    if chunk == "\U{4}" || chunk == "\r" || chunk == "\n" then Confirm
    else if chunk == "\U{3}" then Cancel
    else if chunk == "\U{1B}[A" then Up
    else if chunk == "\U{1B}[B" then Down
    else Ignore
  }

  /** No chunk stands for two commands. */
  lemma EncodingsDisjoint(k: Command, l: Command, chunk: string)
    requires chunk in Encodings(k) && chunk in Encodings(l)
    ensures k == l
  {
  }

  /** A chunk is classified as a command exactly when it is one of that
      command's encodings. */
  lemma ClassifyExact(chunk: string, k: Command)
    requires k != Ignore
    ensures Classify(chunk) == k <==> chunk in Encodings(k)
  {
  }

  /** Matching is per chunk, with no buffering: a cursor-key sequence
      split across two chunks, or two keys delivered in one chunk, is
      ignored. */
  lemma NoReassembly()
    ensures Classify("\U{1B}") == Ignore
    ensures Classify("[A") == Ignore
    ensures Classify("\U{1B}[") == Ignore
    ensures Classify("\r\n") == Ignore
    ensures Classify("\U{1B}[A\U{1B}[A") == Ignore
  {
  }
}
