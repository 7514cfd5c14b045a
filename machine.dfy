/** The key-event state machine of the metadata editor's main loop
    (metacracker.py:50-161), as pure functions on a snapshot of its state.
    One call of `Next` is one turn of the `while True` loop after `getch`
    returned the key code `ch`; rendering is left out. */
module Machine {
  import opened Slicing
  import opened Store
  import opened Splice

  datatype Option<T> = None | Some(value: T)

  // Key codes compared against by the loop; the arrows and Delete are the
  // curses key codes KEY_DOWN, KEY_UP, KEY_LEFT, KEY_RIGHT and KEY_DC.
  const KeyCtrlN: nat := 14
  const KeyEsc: nat := 27
  const KeyBackspace: nat := 127
  const KeyDown: nat := 258
  const KeyUp: nat := 259
  const KeyLeft: nat := 260
  const KeyRight: nat := 261
  const KeyDelete: nat := 330

  predicate IsEnter(ch: nat) {
    ch == 10 || ch == 13
  }

  /** The two commands that end the loop. */
  predicate IsExitCommand(cmd: string) {
    cmd == ":x" || cmd == ":q!"
  }

  /** A code the editor turns into a character of the value: below 256 and
      not one of the codes some earlier branch of the loop takes. Enter is one. */
  predicate IsTyped(ch: nat) {
    ch < 256 && ch != KeyEsc && ch != KeyCtrlN && ch != KeyBackspace
  }

  /** The loop's local variables and the metadata mapping. */
  datatype State = State(
    quittingMenu: bool,
    quitKey: string,
    editing: bool,
    cursorLine: nat,
    cursorPosition: nat,
    records: seq<Record>)

  /** What holds of every state the loop reaches: the mapping is a
      dictionary, and `keys[cursor_line]` exists whenever there are keys. */
  predicate ValidState(s: State) {
    DistinctKeys(s.records) && (|s.records| > 0 ==> s.cursorLine < |s.records|)
  }

  /** The state before the first key (metacracker.py:50-54). */
  function Initial(records: seq<Record>): (s: State)
    requires DistinctKeys(records)
    ensures ValidState(s) && s.records == records
    ensures !s.quittingMenu && !s.editing && s.quitKey == []
    ensures s.cursorLine == 0 && s.cursorPosition == 0
  {
    State(false, "", false, 0, 0, records)
  }

  function Min(a: nat, b: nat): nat {
    if a <= b then a else b
  }

  function Max(a: nat, b: nat): nat {
    if a >= b then a else b
  }

  /** The column at which the value of record `i` starts on its line
      `"{key}: {value}"`. */
  function ValueStart(rs: seq<Record>, i: nat): nat
    requires i < |rs|
  {
    |rs[i].key| + 2
  }

  /** The column just past the end of the value of record `i`:
      `max_cursor_position` of metacracker.py:117. */
  function LineEnd(rs: seq<Record>, i: nat): nat
    requires i < |rs|
  {
    |rs[i].key| + 2 + |rs[i].value|
  }

  /** The key ends the loop: Enter in the quit menu on `:x` or `:q!`
      (metacracker.py:97-99). */
  predicate Ends(s: State, ch: nat)
    ensures Ends(s, ch) ==> ch < 256 && ch != KeyEsc && ch != KeyBackspace && |s.quitKey| >= 2
  {
    s.quittingMenu && IsEnter(ch) && IsExitCommand(s.quitKey)
  }

  /** A key pressed in the quit menu (metacracker.py:93-104). */
  function MenuKey(s: State, ch: nat): (r: State)
    requires s.quittingMenu
    ensures r.records == s.records && r.editing == s.editing
    ensures r.cursorLine == s.cursorLine && r.cursorPosition == s.cursorPosition
    ensures r.quittingMenu ==> |r.quitKey| <= |s.quitKey| + 1
    ensures !r.quittingMenu ==> r.quitKey == []
  {
    if ch == KeyBackspace then
      if s.quitKey != [] then s.(quitKey := Prefix(s.quitKey, -1)) else s
    else if IsEnter(ch) then
      if IsExitCommand(s.quitKey) then s
      else s.(quittingMenu := false, quitKey := "")
    else if ch < 256 then
      s.(quitKey := s.quitKey + [ch as char])
    else
      s
  }

  /** Ctrl-N outside the quit menu (metacracker.py:107-112). */
  function Toggle(s: State): (r: State)
    ensures r.records == s.records && r.cursorLine == s.cursorLine && r.quitKey == s.quitKey
    ensures r.editing != s.editing
    ensures r.editing && |s.records| > 0 ==> r.cursorPosition == ValueStart(s.records, 0)
    ensures !r.editing ==> r.cursorPosition == 0
  {
    var editing := !s.editing;
    s.(editing := editing,
       cursorPosition := if editing && |s.records| > 0 then |s.records[0].key| + 2 else 0)
  }

  /** Up or Down onto record `i`: only the upper bound of the column is
      clamped (metacracker.py:119-132). */
  function MoveTo(s: State, i: nat): (r: State)
    requires i < |s.records|
    ensures r.records == s.records && r.cursorLine == i && r.editing == s.editing
    ensures r.cursorPosition <= LineEnd(s.records, i) && r.cursorPosition <= s.cursorPosition
    ensures s.cursorPosition <= LineEnd(s.records, i) ==> r.cursorPosition == s.cursorPosition
  {
    s.(cursorLine := i, cursorPosition := Min(s.cursorPosition, LineEnd(s.records, i)))
  }

  /** Backspace while editing (metacracker.py:137-143). */
  function EraseBefore(s: State): (r: State)
    requires ValidState(s) && |s.records| > 0
    ensures |r.records| == |s.records| && r.cursorLine == s.cursorLine
    ensures forall i :: 0 <= i < |s.records| && i != s.cursorLine ==> r.records[i] == s.records[i]
    ensures r.records[s.cursorLine].key == s.records[s.cursorLine].key
    ensures r.cursorPosition <= s.cursorPosition
    ensures r.cursorPosition >= ValueStart(s.records, s.cursorLine) || r == s
  {
    var rs, line, pos := s.records, s.cursorLine, s.cursorPosition;
    var start := ValueStart(rs, line);
    if pos > start then
      s.(records := rs[line := Record(rs[line].key, RemoveBefore(rs[line].value, pos - start))],
         cursorPosition := Max(pos - 1, start))
    else s
  }

  /** Delete while editing (metacracker.py:144-149). */
  function EraseAt(s: State): (r: State)
    requires ValidState(s) && |s.records| > 0
    ensures |r.records| == |s.records| && r.cursorLine == s.cursorLine
    ensures forall i :: 0 <= i < |s.records| && i != s.cursorLine ==> r.records[i] == s.records[i]
    ensures r.records[s.cursorLine].key == s.records[s.cursorLine].key
    ensures r.cursorPosition == s.cursorPosition
  {
    var rs, line, pos := s.records, s.cursorLine, s.cursorPosition;
    if pos < LineEnd(rs, line) then
      s.(records := rs[line := Record(rs[line].key, RemoveAt(rs[line].value, pos - ValueStart(rs, line)))])
    else s
  }

  /** Any other code below 256 while editing (metacracker.py:150-155). */
  function TypeChar(s: State, c: char): (r: State)
    requires ValidState(s) && |s.records| > 0
    ensures |r.records| == |s.records| && r.cursorLine == s.cursorLine
    ensures forall i :: 0 <= i < |s.records| && i != s.cursorLine ==> r.records[i] == s.records[i]
    ensures r.records[s.cursorLine].key == s.records[s.cursorLine].key
    ensures |r.records[s.cursorLine].value| == |s.records[s.cursorLine].value| + 1
    ensures r.cursorPosition == s.cursorPosition + 1
  {
    var rs, line, pos := s.records, s.cursorLine, s.cursorPosition;
    s.(records := rs[line := Record(rs[line].key, InsertAt(rs[line].value, pos - ValueStart(rs, line), c))],
       cursorPosition := pos + 1)
  }

  /** A key pressed while editing, with at least one key in the mapping
      (metacracker.py:114-155). A move that is not possible falls through
      to the later branches, none of which takes an arrow code. */
  function EditKey(s: State, ch: nat): (r: State)
    requires ValidState(s) && |s.records| > 0
    ensures r.quittingMenu == s.quittingMenu && r.quitKey == s.quitKey && r.editing == s.editing
    ensures |r.records| == |s.records| && r.cursorLine < |s.records|
    ensures ch >= 256 && ch != KeyDelete ==> r.records == s.records
  {
    var rs, line, pos := s.records, s.cursorLine, s.cursorPosition;
    if ch == KeyDown && line < |rs| - 1 then MoveTo(s, line + 1)
    else if ch == KeyUp && line > 0 then MoveTo(s, line - 1)
    else if ch == KeyLeft && pos > ValueStart(rs, line) then s.(cursorPosition := pos - 1)
    else if ch == KeyRight && pos < LineEnd(rs, line) then s.(cursorPosition := pos + 1)
    else if ch == KeyBackspace then EraseBefore(s)
    else if ch == KeyDelete then EraseAt(s)
    else if ch < 256 then TypeChar(s, ch as char)
    else s
  }

  /** Whatever the key, the editing branch rewrites at most the value of
      the record under the cursor. */
  lemma EditKeyFrame(s: State, ch: nat)
    requires ValidState(s) && |s.records| > 0
    ensures var r := EditKey(s, ch);
      r.records == s.records[s.cursorLine := Record(s.records[s.cursorLine].key, r.records[s.cursorLine].value)]
      && r.cursorLine < |r.records|
  {
  }

  /** One turn of the loop on key code `ch`. When the key ends the loop
      (`Ends`) the state is left as it was. Whatever the key, the keys of
      the mapping and their order stay the same, and only the record under
      the cursor can take a new value. */
  function Next(s: State, ch: nat): (r: State)
    requires ValidState(s)
    ensures ValidState(r)
    ensures Keys(r.records) == Keys(s.records)
    ensures forall i :: 0 <= i < |s.records| && i != s.cursorLine ==> r.records[i] == s.records[i]
    ensures Ends(s, ch) ==> r == s
  {
    if ch == KeyEsc then
      s.(quittingMenu := true)
    else if s.quittingMenu then
      MenuKey(s, ch)
    else if ch == KeyCtrlN then
      Toggle(s)
    else if s.editing && |s.records| > 0 then
      var r := EditKey(s, ch);
      EditKeyFrame(s, ch);
      SetValue(s.records, s.cursorLine, r.records[s.cursorLine].value);
      r
    else
      s
  }

  /** The loop run on a finite sequence of key codes: the state after the
      last code processed, and whether the loop ended (a `break`). */
  function Run(s: State, codes: seq<nat>): (r: (State, bool))
    requires ValidState(s)
    ensures ValidState(r.0)
    ensures Keys(r.0.records) == Keys(s.records)
    decreases |codes|
  {
    if codes == [] then (s, false)
    else if Ends(s, codes[0]) then (s, true)
    else Run(Next(s, codes[0]), codes[1..])
  }

  /** What is handed to `save_metadata` after the loop (metacracker.py:160-161):
      the mapping, when the loop ended with `quit_key == ":x"`. */
  function Saved(records: seq<Record>, codes: seq<nat>): (r: Option<seq<Record>>)
    requires DistinctKeys(records)
    ensures r.Some? ==> Keys(r.value) == Keys(records) && DistinctKeys(r.value)
    ensures r.Some? ==> Run(Initial(records), codes).1
  {
    var (last, ended) := Run(Initial(records), codes);
    if ended && last.quitKey == ":x" then Some(last.records) else None
  }
}
