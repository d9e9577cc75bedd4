/** The interactive console (src/ui/console.cpp): a prompt, the command
    history with its position, and the key handling that keeps editing
    behind the prompt. The text widget is reduced to the text after the
    prompt on the current line and the cursor's block and column. */
module Console {
  datatype Console = Console(prompt: string, promptLength: int, promptBlock: int,
                             historyPos: int, commands: seq<string>, line: string)

  /** The constructor: no prompt, no history. */
  function Create(): (c: Console)
    ensures Valid(c) && c.commands == [] && c.historyPos == 0
  {
    Console("", 0, 0, 0, [], "")
  }

  /** The history position names a command, or the empty line after the
      last one. */
  predicate Valid(c: Console) {
    0 <= c.historyPos <= |c.commands|
  }

  /** The characters QString::trimmed removes (the ASCII ones; other
      Unicode spaces are not part of this model). */
  predicate IsSpace(ch: char) {
    ch == ' ' || ch == '\t' || ch == '\n' || ch == '\r' || ch == '\U{B}' || ch == '\U{C}'
  }

  /** command.trimmed().isEmpty(): nothing but white space. */
  predicate Blank(s: string) {
    forall k :: 0 <= k < |s| ==> IsSpace(s[k])
  }

  /** setPrompt: the prompt and its length. */
  function SetPrompt(c: Console, p: string): (r: Console)
    ensures r.prompt == p && r.promptLength == |p|
    ensures r.commands == c.commands && r.historyPos == c.historyPos
  {
    c.(prompt := p, promptLength := |p|)
  }

  /** inPromptBlock: the cursor is on a later block than the prompt's, or
      on the prompt's block at or after the end of the prompt. */
  predicate InPromptBlock(c: Console, block: int, column: int) {
    block > c.promptBlock || (block == c.promptBlock && column >= c.promptLength)
  }

  /** handleBackspace: true exactly at the end of the prompt, where a
      backspace or a move left is swallowed. */
  function HandleBackspace(c: Console, block: int, column: int): (stop: bool)
    ensures stop <==> block == c.promptBlock && column == c.promptLength
    ensures stop ==> InPromptBlock(c, block, column)
    ensures InPromptBlock(c, block, column) && !stop ==> block > c.promptBlock || column > c.promptLength
  {
    block == c.promptBlock && column == c.promptLength
  }

  /** handleReturn: a command that is not blank joins the history and the
      position moves past it; the command is emitted either way and a
      fresh prompt line follows. */
  function HandleReturn(c: Console): (r: (Console, string))
    ensures r.1 == c.line && r.0.line == ""
    ensures !Blank(c.line) ==> r.0.commands == c.commands + [c.line] && r.0.historyPos == |r.0.commands|
    ensures Blank(c.line) ==> r.0.commands == c.commands && r.0.historyPos == c.historyPos
    ensures Valid(c) ==> Valid(r.0)
  {
    var command := c.line;
    var c1 := if !Blank(command) then c.(commands := c.commands + [command], historyPos := |c.commands| + 1) else c;
    (c1.(line := ""), command)
  }

  /** handleHistory: a position outside [0, count] is ignored; otherwise
      the line shows that command, or is empty at count. */
  function HandleHistory(c: Console, pos: int): (r: Console)
    ensures pos < 0 || pos > |c.commands| ==> r == c
    ensures 0 <= pos < |c.commands| ==> r.historyPos == pos && r.line == c.commands[pos]
    ensures pos == |c.commands| ==> r.historyPos == pos && r.line == ""
    ensures r.commands == c.commands && r.prompt == c.prompt
    ensures Valid(c) ==> Valid(r)
  {
    if pos < 0 || pos > |c.commands| then c
    else if pos == |c.commands| then c.(historyPos := pos, line := "")
    else c.(historyPos := pos, line := c.commands[pos])
  }

  /** The Up and Down keys. */
  function KeyUp(c: Console): (r: Console)
    ensures 0 < c.historyPos <= |c.commands| ==> r.historyPos == c.historyPos - 1 && r.line == c.commands[c.historyPos - 1]
    ensures c.historyPos <= 0 || c.historyPos > |c.commands| + 1 ==> r == c
  {
    HandleHistory(c, c.historyPos - 1)
  }

  function KeyDown(c: Console): (r: Console)
    ensures -1 <= c.historyPos < |c.commands| ==> r.historyPos == c.historyPos + 1
    ensures c.historyPos >= |c.commands| || c.historyPos < -1 ==> r == c
  {
    HandleHistory(c, c.historyPos + 1)
  }

  /** Up then Down comes back to the same position, except at the start
      of the history, where Up does nothing. */
  lemma UpDown(c: Console)
    requires Valid(c) && c.historyPos > 0
    ensures KeyDown(KeyUp(c)).historyPos == c.historyPos
    ensures c.historyPos < |c.commands| ==> KeyDown(KeyUp(c)).line == c.commands[c.historyPos]
  {
  }

  /** Up at the first command, and Down past the last position, change
      nothing. */
  lemma HistoryEnds(c: Console)
    requires Valid(c)
    ensures c.historyPos == 0 ==> KeyUp(c) == c
    ensures c.historyPos == |c.commands| ==> KeyDown(c) == c
  {
  }

  /** After a command is entered, Up recalls it. */
  lemma RecallLast(c: Console)
    requires !Blank(c.line)
    ensures var r := KeyUp(HandleReturn(c).0); r.line == c.line && r.historyPos == |c.commands|
  {
  }
}
