# metacracker editor loop in Dafny

metacracker is a terminal metadata editor for PDF and image files. It reads
a file's metadata into a dictionary and shows one `key: value` line per
entry. The user edits the values with the keyboard. An Escape-opened quit
menu takes `:x`, which writes the dictionary back, or `:q!`, which discards
the edits.

This project models the editor's key handling: the `while True` loop of
`main`. The loop keeps five variables (`quitting_menu`, `quit_key`,
`editing`, `cursor_line`, `cursor_position`) plus the metadata dictionary.
Each turn reads one key code from `getch`.

The model has six modules:

- `Slicing`: Python's `s[:i]` and `s[i:]`. Negative bounds count from the
  end, and every bound is clamped, so slicing never fails. The editor's
  slice bounds come from the cursor column and can be negative or past the
  end, so these rules matter.
- `Store`: the dictionary as an insertion-ordered sequence of records.
  `Put` is the assignment `metadata[key] = value`.
- `Splice`: the three value edits (insert a character, Backspace, Delete).
  Each is written with the program's own slice expressions.
- `Machine`: one loop turn as a pure function `Next` on a snapshot `State`,
  plus `Run` over a finite sequence of key codes and `Saved`, the save
  decision made after the loop.
- `MachineFacts`: what each key does, stated against `Next`, and what a
  whole run hands to the writer.
- `Session`: the loop as the program runs it. The class `Editor` holds the
  five variables and the dictionary as fields and updates them in place.
  `Editor.Step` is one turn and is proved equal to `Next`. `RunSession`
  runs the loop over a sequence of key codes and returns what gets saved.
  The pure `Machine` functions write the current record by index. The
  methods do the dictionary assignment with `Put`, and `Store.PutAt`
  proves the two equal.

Key codes are plain numbers: Escape 27, Ctrl-N 14, Backspace 127, Enter 10
or 13, and the curses codes KEY_DOWN 258, KEY_UP 259, KEY_LEFT 260,
KEY_RIGHT 261 and KEY_DC 330. Keeping them as numbers reproduces the
loop's fall-through order exactly:

- In the quit menu, Ctrl-N (14) is appended to the command as a character.
- While editing, Enter is typed into the value as `chr(10)` or `chr(13)`.
- An arrow key that cannot move falls through every later branch and does
  nothing.

A value's text starts at column `len(key) + 2` of its line. The model keeps
two consequences of the code exactly as written:

- Up and Down clamp the column only from above (`min`). Moving onto a
  record with a longer key can leave the cursor inside the key. There the
  offset into the value is negative, and Python's slicing counts it from
  the end of the value. `DownLeavesValue` shows a Delete at offset -1
  turning `ab` into `aab`.
- Ctrl-N puts the cursor at the start of the first record's value even
  when the cursor is on a later line. `ToggleOnLaterLine` shows this.

Every other key keeps a cursor that lies on the value on that value
(`EditingKeepsCursorInValue`). The per-key facts for typing, Backspace and
Delete, and the round trip of typing then Backspace
(`TypeThenBackspace`), hold for a cursor on the value. Off the value they
fail: `TypeOffValue` types `c` at offset -1 into `ab`, which gives `acb`,
and the Backspace that follows does nothing.

## Model

| member | source | states |
|---|---|---|
| Slicing.Bound | metacracker.py:96 | A slice bound in range is itself; a negative bound counts from the end; a bound past the end gives the length, and one below minus the length gives 0 |
| Slicing.Prefix | metacracker.py:96 | `s[:i]` has length i for an in-range bound and length len(s)+i for a negative bound no longer than s; it is all of s for i at or past the length, and empty for i at or below minus the length |
| Slicing.Suffix | metacracker.py:140 | `s[i:]` has length len(s)-i for an in-range bound and -i for a negative bound no longer than s; it is empty for i at or past the length, and all of s for i at or below minus the length |
| Slicing.PrefixSuffix | metacracker.py:140 | For every bound, `s[:i]` is a prefix of s, `s[i:]` is a suffix, and together they make up s |
| Slicing.DropLast | metacracker.py:95-96 | `quit_key[:-1]` removes exactly the last character, and leaves an empty command empty |
| Store.Keys | metacracker.py:63 | `list(metadata.keys())` has one key per record, in record order |
| Store.Replace | metacracker.py:140 | Keeps the length; every record with key k takes the new value, every other record is unchanged |
| Store.Put | metacracker.py:140 | Assigning to an existing key keeps the key list; assigning to a new key appends a record; keys stay distinct |
| Store.SetValue | metacracker.py:147 | A new value for record i keeps the key list and the distinctness of keys |
| Store.PutAt | metacracker.py:152 | `metadata[keys[i]] = v` rewrites record i and no other record |
| Splice.InsertAt | metacracker.py:152 | `value[:o] + chr(ch) + value[o:]` is one character longer than the value, for every offset |
| Splice.RemoveBefore | metacracker.py:140 | For an offset of at least 1, the only case the guard at line 138 admits, `value[:o-1] + value[o:]` is never longer than the value |
| Splice.RemoveAt | metacracker.py:147 | For an offset of at least 0, `value[:o] + value[o+1:]` is never longer than the value |
| Splice.InsertAtSplices | metacracker.py:150-155 | Typing always lengthens the value by one; on the value it puts the character at the offset and keeps both sides |
| Splice.RemoveBeforeSplices | metacracker.py:137-143 | For an offset o ≥ 1, the only case line 138 admits: within the value (o ≤ len(value)) Backspace removes the character before o; past the end it changes nothing |
| Splice.RemoveAtSplices | metacracker.py:144-149 | For an offset within the value (0 ≤ o < len(value)), Delete removes the character at o; at or past the end it changes nothing |
| Splice.TypingAddsOneCharacter | metacracker.py:152 | As multisets, typing adds exactly the typed character to the value, for every offset, including the end of the value and an empty value |
| Splice.EditsKeepOtherCharacters | metacracker.py:140-147 | As multisets, for an offset within the value, Backspace and Delete each remove exactly one character of the value |
| Splice.InsertThenRemoveBefore | metacracker.py:140 | For an offset within the value (0 ≤ o ≤ len(value)), Backspace just after typing at offset o restores the value |
| Splice.InsertThenRemoveAt | metacracker.py:147 | For an offset within the value (0 ≤ o ≤ len(value)), Delete at the offset where a character was just typed restores the value |
| Splice.RemoveAtMinusOne | metacracker.py:147 | Delete at offset -1 does not shorten the value: it yields all but the last character followed by the whole value |
| Machine.Initial | metacracker.py:49-54 | The loop starts outside the quit menu and not editing, with an empty command, the cursor at line 0 and column 0, and the dictionary as read |
| Machine.Ends | metacracker.py:97-99 | The loop can only end on an Enter code below 256, never on Escape or Backspace, and only with a command of at least two characters |
| Machine.MenuKey | metacracker.py:93-104 | A quit-menu key never touches the dictionary, the editing flag or the cursor; it grows the command by at most one character, and leaving the menu clears the command |
| Machine.Toggle | metacracker.py:107-112 | Ctrl-N flips editing and keeps the line, the command and the dictionary; switching on with keys puts the cursor at the first record's value start, switching off puts it at column 0 |
| Machine.MoveTo | metacracker.py:119-132 | Up or Down onto line i keeps the dictionary; the new column is at most the new line's end and never larger than the old one, and a column within the new line is kept |
| Machine.EraseBefore | metacracker.py:137-143 | Backspace keeps the line, every other record and the current key; the cursor never moves right and, if anything changed, stays at or after the value start |
| Machine.EraseAt | metacracker.py:144-149 | Delete keeps the line, the cursor, every other record and the current key |
| Machine.TypeChar | metacracker.py:150-155 | Typing keeps the line, every other record and the current key, lengthens the current value by one and moves the cursor one right |
| Machine.EditKey | metacracker.py:114-155 | The editing branch keeps the quit-menu state and the editing flag, keeps the line in range, and codes of 256 and above other than Delete leave the dictionary alone |
| Machine.EditKeyFrame | metacracker.py:114-155 | A key in the editing branch rewrites at most the value of the record under the cursor, and keeps the line in range |
| Machine.Next | metacracker.py:88-155 | One turn keeps the keys and their order, keeps the line in range, changes no record except the current one, and leaves the state alone when the key ends the loop |
| Machine.Run | metacracker.py:58-155 | Any run keeps the keys and their order, and ends in a valid state |
| Machine.Saved | metacracker.py:160-161 | Something is saved only when the loop ended, and what is saved has the keys read from the file, in order and distinct |
| MachineFacts.NextWhileEditing | metacracker.py:114-155 | Outside the quit menu, while editing with keys, every key except Escape and Ctrl-N goes to the editing branch |
| MachineFacts.EscapeOpensMenu | metacracker.py:91-92 | Escape never ends the loop; it opens the quit menu from any state and changes nothing else |
| MachineFacts.MenuBackspace | metacracker.py:94-96 | In the quit menu, Backspace drops exactly the last command character; on an empty command it does nothing |
| MachineFacts.MenuTyping | metacracker.py:103-104 | In the quit menu, a code below 256 other than Enter, Escape and Backspace is appended as a character; codes of 256 and above are ignored |
| MachineFacts.MenuEnter | metacracker.py:97-102 | In the quit menu, Enter ends the loop if and only if the command is `:x` or `:q!`; otherwise it closes the menu and clears the command |
| MachineFacts.ViewKeysInert | metacracker.py:114 | Outside the quit menu, when not editing or with no keys, every key except Escape and Ctrl-N leaves the whole state unchanged |
| MachineFacts.RecordsChangeOnlyWhileEditing | metacracker.py:91-155 | A turn that changes the dictionary happened in the editing branch: outside the quit menu, editing, with keys, on a key other than Escape and Ctrl-N |
| MachineFacts.QuitKeyEmptyOutsideMenu | metacracker.py:91-104 | A turn keeps the command empty whenever the quit menu is closed |
| MachineFacts.ToggleEditing | metacracker.py:107-112 | Ctrl-N flips editing. Switching it on with keys puts the cursor at the first record's value start, otherwise at column 0. The line and the dictionary stay |
| MachineFacts.ToggleOnFirstLine | metacracker.py:107-112 | Switching editing on while on the first line puts the cursor on that line's value |
| MachineFacts.ToggleOnLaterLine | metacracker.py:107-112 | Switching editing off and on while on a later line can leave the cursor past that line's end |
| MachineFacts.MoveDown | metacracker.py:119-125 | Down moves one line unless on the last line, where it does nothing. The column is clamped to the new line's end and never raised. The dictionary stays |
| MachineFacts.MoveUp | metacracker.py:126-132 | Up moves one line unless on the first line, where it does nothing. The column is clamped as for Down |
| MachineFacts.DownLeavesValue | metacracker.py:119-149 | Down onto a longer key leaves the cursor inside the key, and a Delete there turns `ab` into `aab` |
| MachineFacts.MoveLeftRight | metacracker.py:133-136 | Left and Right move one column within the value and stop at its ends; a cursor on the value stays on it |
| MachineFacts.TypeCharInValue | metacracker.py:150-155 | With the cursor on the value, typing inserts the character at the cursor offset and moves the cursor one right |
| MachineFacts.EraseBeforeInValue | metacracker.py:137-143 | With the cursor past the value start and not past its end, Backspace removes the character before the cursor and moves the cursor one left |
| MachineFacts.EraseAtInValue | metacracker.py:144-149 | With the cursor on a character of the value, Delete removes that character and keeps the cursor |
| MachineFacts.TypeKey | metacracker.py:150-155 | While editing with the cursor on the value, any typed code (Enter included) is inserted into the current value at the cursor, which moves past it and stays on the value |
| MachineFacts.BackspaceKey | metacracker.py:137-143 | While editing with the cursor on the value, Backspace removes the character before the cursor and steps back; at the value start it does nothing |
| MachineFacts.DeleteKey | metacracker.py:144-149 | While editing with the cursor on the value, Delete removes the character under the cursor; at the value end it does nothing |
| MachineFacts.TypeThenBackspace | metacracker.py:137-155 | With the cursor on the value, typing a character then pressing Backspace gives back the exact state before |
| MachineFacts.TypeOffValue | metacracker.py:137-155 | With the cursor inside a longer key, typing `c` into `ab` gives `acb`, and the Backspace that follows does nothing, so the round trip fails |
| MachineFacts.EditingKeepsCursorInValue | metacracker.py:133-155 | Left, Right, Backspace, Delete and typing keep a cursor that lies on the value on the value |
| MachineFacts.RunEndsOnExitCommand | metacracker.py:97-99 | The loop only ends in the quit menu with `:x` or `:q!` as the command |
| MachineFacts.SavedOnlyOnSave | metacracker.py:160-161 | The dictionary is written back if and only if the loop ended on `:x`, never on `:q!` or while still running; what is written has the original keys in order |
| MachineFacts.RunConcat | metacracker.py:58-155 | Running on a+b is running on a, then on b from where a stopped, unless the loop ended during a |
| MachineFacts.RunStep | metacracker.py:58-155 | A key that does not end the loop is processed and the loop goes on with the rest |
| MachineFacts.TypeX | metacracker.py:150-155 | Typing `X` at column 8 of `Title: ab` gives `Title: aXb` with the cursor at column 9 |
| MachineFacts.TypeIntoTitle | metacracker.py:107-155 | Ctrl-N, Right, `X` on `Title: ab` gives `Title: aXb` without ending the loop |
| MachineFacts.ConfirmSave | metacracker.py:91-104 | Escape `:` `x` Enter ends the loop with command `:x` and the dictionary untouched |
| MachineFacts.ConfirmDiscard | metacracker.py:91-104 | Escape `:` `q` `!` Enter ends the loop with command `:q!` and the dictionary untouched |
| MachineFacts.EditThenSave | metacracker.py:107-161 | The edited `Title: aXb` is what gets saved after `:x` |
| MachineFacts.EditThenDiscard | metacracker.py:107-161 | The same edit confirmed with `:q!` ends the loop and nothing is saved |
| Session.Editor.constructor | metacracker.py:49-54 | The loop's variables start as in `Machine.Initial` |
| Session.Editor.Step | metacracker.py:88-155 | The in-place turn leaves the fields equal to `Next` of the old fields and keeps them valid; it reports a break exactly when the key ends the loop |
| Session.Editor.MenuKeyPressed | metacracker.py:93-104 | The in-place quit-menu branch does what `MenuKey` says, and reports a break exactly on Enter with `:x` or `:q!` |
| Session.Editor.EditKeyPressed | metacracker.py:114-155 | The in-place editing branch does what `EditKey` says |
| Session.Editor.Backspace | metacracker.py:137-143 | The dictionary assignment and cursor step do what `EraseBefore` says |
| Session.Editor.Delete | metacracker.py:144-149 | The dictionary assignment does what `EraseAt` says |
| Session.Editor.Type | metacracker.py:150-155 | The dictionary assignment and cursor step do what `TypeChar` says |
| Session.RunSession | metacracker.py:58-161 | The loop over a sequence of codes ends exactly as `Run` says and saves exactly what `Saved` says; anything saved has the original keys |

## Left out

- `extract_metadata` and `save_metadata` (PyPDF2 and PIL file I/O), the file-existence check and the command-line argument check are not modelled. The dictionary is a parameter, and the model's output is the dictionary that would be passed to `save_metadata`.
- Screen drawing is not modelled: `clear`, `addstr`, `refresh`, `curs_set`, `getmaxyx` and `curses.wrapper`. The only fact kept from the layout is that a value starts at column `len(key) + 2`. Drawing can raise `curses.error` and end the program without saving. That happens when the cursor column (line 84) is past the window width, when the `Quit menu {quit_key}` footer (line 77) reaches the last cell of the screen, or when there are more records than rows (line 73). `Run` and `RunSession` have no such exit. A crash saves nothing, so the save decision `SavedOnlyOnSave` describes is unaffected.
- `getch` is replaced by a finite sequence of key codes. The model treats key codes as natural numbers, so the `-1` that a non-blocking `getch` returns is not modelled. The `while True` loop becomes `Run` or `RunSession` over that finite sequence, and a run that uses up the codes without a `break` is reported as not ended.
- Values are modelled as strings. The `str(value)` branches for non-string metadata values are not modelled; they apply the same slice edits to the value's string form.
