/** The editor's main loop as the program runs it: five local variables and
    the metadata dictionary, updated in place one key code at a time
    (metacracker.py:50-161). `Editor` holds that state; `Step` is one turn of
    the `while True` loop and is proved to do what `Machine.Next` says. */
module Session {
  import opened Slicing
  import opened Store
  import opened Splice
  import opened Machine

  class Editor {
    var quittingMenu: bool
    var quitKey: string
    var editing: bool
    var cursorLine: nat
    var cursorPosition: nat
    var metadata: seq<Record>

    /** The current values of the loop's variables. */
    function Snapshot(): State
      reads this
    {
      State(quittingMenu, quitKey, editing, cursorLine, cursorPosition, metadata)
    }

    ghost predicate Valid()
      reads this
    {
      ValidState(Snapshot())
    }

    /** The variables as the loop starts (metacracker.py:49-54). */
    constructor (metadata: seq<Record>)
      requires DistinctKeys(metadata)
      ensures Valid() && Snapshot() == Initial(metadata)
    {
      this.metadata := metadata;
      quittingMenu := false;
      quitKey := "";
      editing := false;
      cursorLine := 0;
      cursorPosition := 0;
    }

    /** Handles the key code `ch` that `getch` returned (metacracker.py:91-155);
        `exit` is true when the loop breaks. */
    method Step(ch: nat) returns (exit: bool)
      requires Valid()
      modifies this
      ensures Valid()
      ensures exit == Ends(old(Snapshot()), ch)
      ensures Snapshot() == Next(old(Snapshot()), ch)
    {
      exit := false;
      if ch == KeyEsc {
        quittingMenu := true;
      } else if quittingMenu {
        exit := MenuKeyPressed(ch);
      } else if ch == KeyCtrlN {
        editing := !editing;
        if editing && |metadata| > 0 {
          cursorPosition := |metadata[0].key| + 2;
        } else {
          cursorPosition := 0;
        }
      } else if editing && |metadata| > 0 {
        EditKeyPressed(ch);
      }
    }

    /** A key in the quit menu (metacracker.py:93-104). */
    method MenuKeyPressed(ch: nat) returns (exit: bool)
      requires Valid() && quittingMenu
      modifies this
      ensures exit == (IsEnter(ch) && IsExitCommand(old(quitKey)))
      ensures Snapshot() == MenuKey(old(Snapshot()), ch)
    {
      exit := false;
      if ch == KeyBackspace {
        if quitKey != [] {
          quitKey := Prefix(quitKey, -1);
        }
      } else if ch == 10 || ch == 13 {
        if quitKey == ":x" || quitKey == ":q!" {
          exit := true;
        } else {
          quittingMenu := false;
          quitKey := "";
        }
      } else if ch < 256 {
        quitKey := quitKey + [ch as char];
      }
    }

    /** A key while editing with at least one key in the dictionary
        (metacracker.py:114-155). */
    method EditKeyPressed(ch: nat)
      requires Valid() && |metadata| > 0
      modifies this
      ensures Snapshot() == EditKey(old(Snapshot()), ch)
    {
      var key := metadata[cursorLine].key;
      var value := metadata[cursorLine].value;
      var maxCursorPosition := |key| + 2 + |value|;
      if ch == KeyDown && cursorLine < |metadata| - 1 {
        cursorLine := cursorLine + 1;
        value := metadata[cursorLine].value;
        cursorPosition := Min(cursorPosition, |metadata[cursorLine].key| + 2 + |value|);
      } else if ch == KeyUp && cursorLine > 0 {
        cursorLine := cursorLine - 1;
        value := metadata[cursorLine].value;
        cursorPosition := Min(cursorPosition, |metadata[cursorLine].key| + 2 + |value|);
      } else if ch == KeyLeft && cursorPosition > |key| + 2 {
        cursorPosition := cursorPosition - 1;
      } else if ch == KeyRight && cursorPosition < maxCursorPosition {
        cursorPosition := cursorPosition + 1;
      } else if ch == KeyBackspace {
        Backspace();
      } else if ch == KeyDelete {
        Delete();
      } else if ch < 256 {
        Type(ch as char);
      }
    }

    /** Backspace while editing (metacracker.py:137-143). */
    method Backspace()
      requires Valid() && |metadata| > 0
      modifies this
      ensures Snapshot() == EraseBefore(old(Snapshot()))
    {
      var key := metadata[cursorLine].key;
      var value := metadata[cursorLine].value;
      if cursorPosition > |key| + 2 {
        var edited := RemoveBefore(value, cursorPosition - |key| - 2);
        PutAt(metadata, cursorLine, edited);
        metadata := Put(metadata, key, edited);
        cursorPosition := Max(cursorPosition - 1, |key| + 2);
      }
    }

    /** Delete while editing (metacracker.py:144-149). */
    method Delete()
      requires Valid() && |metadata| > 0
      modifies this
      ensures Snapshot() == EraseAt(old(Snapshot()))
    {
      var key := metadata[cursorLine].key;
      var value := metadata[cursorLine].value;
      if cursorPosition < |key| + 2 + |value| {
        var edited := RemoveAt(value, cursorPosition - |key| - 2);
        PutAt(metadata, cursorLine, edited);
        metadata := Put(metadata, key, edited);
      }
    }

    /** A character typed while editing (metacracker.py:150-155). */
    method Type(c: char)
      requires Valid() && |metadata| > 0
      modifies this
      ensures Snapshot() == TypeChar(old(Snapshot()), c)
    {
      var key := metadata[cursorLine].key;
      var value := metadata[cursorLine].value;
      var edited := InsertAt(value, cursorPosition - |key| - 2, c);
      PutAt(metadata, cursorLine, edited);
      metadata := Put(metadata, key, edited);
      cursorPosition := cursorPosition + 1;
    }
  }

  /** The whole loop fed the key codes `codes` in order, followed by the
      save decision of metacracker.py:160-161. `ended` says whether the
      loop broke before the codes ran out; `saved` is what is handed to
      `save_metadata`, if anything. */
  method RunSession(metadata: seq<Record>, codes: seq<nat>) returns (ended: bool, saved: Option<seq<Record>>)
    requires DistinctKeys(metadata)
    ensures ended == Run(Initial(metadata), codes).1
    ensures saved == Saved(metadata, codes)
    ensures saved.Some? ==> Keys(saved.value) == Keys(metadata)
  {
    var editor := new Editor(metadata);
    var i := 0;
    ended := false;
    while i < |codes| && !ended
      invariant 0 <= i <= |codes|
      invariant editor.Valid()
      invariant Keys(editor.metadata) == Keys(metadata)
      invariant Run(Initial(metadata), codes) ==
        if ended then (editor.Snapshot(), true) else Run(editor.Snapshot(), codes[i..])
    {
      ended := editor.Step(codes[i]);
      i := i + 1;
    }
    if editor.quitKey == ":x" && ended {
      saved := Some(editor.metadata);
    } else {
      saved := None;
    }
  }
}
