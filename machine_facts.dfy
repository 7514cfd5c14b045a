/** What each key does to the editor's state, stated against `Machine.Next`,
    and what the loop as a whole hands to the writer. */
module MachineFacts {
  import opened Slicing
  import opened Store
  import opened Splice
  import opened Machine

  /** Editing mode with at least one record, outside the quit menu: the
      states in which the value-editing branch of the loop runs. */
  predicate EditingOn(s: State) {
    ValidState(s) && !s.quittingMenu && s.editing && |s.records| > 0
  }

  /** While editing, the cursor lies on the current value: between the
      column where the value starts and the column just past its end. */
  predicate CursorInValue(s: State)
    requires ValidState(s)
  {
    s.editing && |s.records| > 0 ==>
      ValueStart(s.records, s.cursorLine) <= s.cursorPosition <= LineEnd(s.records, s.cursorLine)
  }

  /** Outside the quit menu, every key but Escape and Ctrl-N goes to the
      editing branch. */
  lemma NextWhileEditing(s: State, ch: nat)
    requires EditingOn(s) && ch != KeyEsc && ch != KeyCtrlN
    ensures Next(s, ch) == EditKey(s, ch)
  {
  }

  // ---------------------------------------------------------------- quit menu

  /** Escape opens the quit menu from any state and changes nothing else;
      it is never typed into the command. */
  lemma EscapeOpensMenu(s: State)
    requires ValidState(s)
    ensures !Ends(s, KeyEsc)
    ensures Next(s, KeyEsc) == s.(quittingMenu := true)
  {
  }

  /** In the quit menu, Backspace removes exactly the last character of the
      command, and does nothing to an empty command. */
  lemma {:induction false} MenuBackspace(s: State)
    requires ValidState(s) && s.quittingMenu
    ensures s.quitKey == [] ==> Next(s, KeyBackspace) == s
    ensures s.quitKey != [] ==>
      var t := Next(s, KeyBackspace);
      t == s.(quitKey := t.quitKey) && t.quitKey + [s.quitKey[|s.quitKey| - 1]] == s.quitKey
  {
    DropLast(s.quitKey);
  }

  /** In the quit menu, every other code below 256 except Enter is appended
      to the command as a character, Ctrl-N (14) included; codes from 256
      up (arrows, Delete) are ignored. The mapping and the cursor stay. */
  lemma MenuTyping(s: State, ch: nat)
    requires ValidState(s) && s.quittingMenu
    requires ch != KeyEsc && ch != KeyBackspace && !IsEnter(ch)
    ensures !Ends(s, ch)
    ensures ch < 256 ==> Next(s, ch) == s.(quitKey := s.quitKey + [ch as char])
    ensures ch >= 256 ==> Next(s, ch) == s
  {
  }

  /** In the quit menu, Enter ends the loop exactly when the command is
      `:x` or `:q!`; any other command closes the menu and clears the
      command, leaving the editing flag, the cursor and the mapping alone. */
  lemma MenuEnter(s: State, ch: nat)
    requires ValidState(s) && s.quittingMenu && IsEnter(ch)
    ensures Ends(s, ch) <==> (s.quitKey == ":x" || s.quitKey == ":q!")
    ensures !Ends(s, ch) ==> Next(s, ch) == s.(quittingMenu := false, quitKey := "")
  {
  }

  // ---------------------------------------------------------------- view mode

  /** Outside the quit menu, when not editing or with no keys, every key
      but Escape and Ctrl-N does nothing: the mapping is only browsed. */
  lemma ViewKeysInert(s: State, ch: nat)
    requires ValidState(s) && !s.quittingMenu && !(s.editing && |s.records| > 0)
    requires ch != KeyEsc && ch != KeyCtrlN
    ensures Next(s, ch) == s
  {
  }

  /** The mapping changes only in the editing branch. */
  lemma RecordsChangeOnlyWhileEditing(s: State, ch: nat)
    requires ValidState(s)
    ensures Next(s, ch).records != s.records ==> EditingOn(s) && ch != KeyEsc && ch != KeyCtrlN
  {
  }

  /** Outside the quit menu the command is always empty: leaving the menu
      clears it, and only the menu adds to it. */
  lemma QuitKeyEmptyOutsideMenu(s: State, ch: nat)
    requires ValidState(s) && (!s.quittingMenu ==> s.quitKey == [])
    ensures var t := Next(s, ch); !t.quittingMenu ==> t.quitKey == []
  {
  }

  // ---------------------------------------------------------- editing toggle

  /** Ctrl-N outside the quit menu flips the editing flag. Switching it on
      with at least one record puts the cursor at the start of the FIRST
      record's value, whatever line the cursor is on; otherwise the column
      becomes 0. The line and the mapping stay. */
  lemma ToggleEditing(s: State)
    requires ValidState(s) && !s.quittingMenu
    ensures var t := Next(s, KeyCtrlN);
      t.editing == !s.editing && t.cursorLine == s.cursorLine && t.records == s.records
      && !t.quittingMenu && t.quitKey == s.quitKey
      && t.cursorPosition == (if t.editing && |s.records| > 0 then ValueStart(s.records, 0) else 0)
  {
  }

  /** Switching editing on while on the first line puts the cursor on the value. */
  lemma ToggleOnFirstLine(s: State)
    requires ValidState(s) && !s.quittingMenu && !s.editing && s.cursorLine == 0
    ensures CursorInValue(Next(s, KeyCtrlN))
  {
  }

  /** Switching editing off and on again on a later line leaves the cursor
      off that line's value: here past its end, column 5 on `"k: "`. */
  lemma ToggleOnLaterLine()
    ensures var s := Run(Initial([Record("key", ""), Record("k", "")]),
                         [KeyCtrlN, KeyDown, KeyCtrlN, KeyCtrlN]).0;
      s.editing && s.cursorLine == 1 && s.cursorPosition == 5 && !CursorInValue(s)
  {
    var rs := [Record("key", ""), Record("k", "")];
    var codes := [KeyCtrlN, KeyDown, KeyCtrlN, KeyCtrlN];
    var s0 := Initial(rs);
    var s1 := State(false, "", true, 0, 5, rs);
    var s2 := State(false, "", true, 1, 3, rs);
    var s3 := State(false, "", false, 1, 0, rs);
    var s4 := State(false, "", true, 1, 5, rs);
    ToggleEditing(s0);
    MoveDown(s1);
    ToggleEditing(s2);
    ToggleEditing(s3);
    assert Run(s0, codes) == Run(s1, codes[1..]);
    assert codes[1..][1..] == [KeyCtrlN, KeyCtrlN];
    assert Run(s1, codes[1..]) == Run(s2, [KeyCtrlN, KeyCtrlN]);
    assert Run(s2, [KeyCtrlN, KeyCtrlN]) == Run(s3, [KeyCtrlN]);
    assert Run(s3, [KeyCtrlN]) == Run(s4, []);
  }

  // -------------------------------------------------------------- navigation

  /** Down moves to the next record unless the cursor is on the last one,
      where it does nothing. Only the upper bound of the column is clamped:
      a column past the new line's end is pulled back to it, a smaller one
      is kept. */
  lemma MoveDown(s: State)
    requires EditingOn(s)
    ensures var t := Next(s, KeyDown);
      t.records == s.records && t.editing && !t.quittingMenu && t.quitKey == s.quitKey
      && (s.cursorLine < |s.records| - 1 ==>
            t.cursorLine == s.cursorLine + 1
            && t.cursorPosition <= LineEnd(t.records, t.cursorLine)
            && t.cursorPosition <= s.cursorPosition
            && (s.cursorPosition <= LineEnd(t.records, t.cursorLine) ==> t.cursorPosition == s.cursorPosition))
      && (s.cursorLine == |s.records| - 1 ==> t == s)
  {
  }

  /** Up moves to the previous record unless the cursor is on the first one,
      where it does nothing; the column is clamped as for Down. */
  lemma MoveUp(s: State)
    requires EditingOn(s)
    ensures var t := Next(s, KeyUp);
      t.records == s.records && t.editing && !t.quittingMenu && t.quitKey == s.quitKey
      && (s.cursorLine > 0 ==>
            t.cursorLine == s.cursorLine - 1
            && t.cursorPosition <= LineEnd(t.records, t.cursorLine)
            && t.cursorPosition <= s.cursorPosition
            && (s.cursorPosition <= LineEnd(t.records, t.cursorLine) ==> t.cursorPosition == s.cursorPosition))
      && (s.cursorLine == 0 ==> t == s)
  {
  }

  /** Because Up and Down never raise the column to the start of the new
      value, moving onto a record with a longer key leaves the cursor inside
      the key: here column 3 on `"kk: ab"`, whose value starts at column 4.
      A following Delete then computes the offset -1, and `value[:-1] +
      value[0:]` turns `"ab"` into `"aab"`. */
  lemma DownLeavesValue()
    ensures var rs := [Record("k", ""), Record("kk", "ab")];
      var s := Run(Initial(rs), [KeyCtrlN]).0;
      var t := Next(s, KeyDown);
      CursorInValue(s) && t.cursorLine == 1 && t.cursorPosition == 3 && !CursorInValue(t)
      && Next(t, KeyDelete).records == [Record("k", ""), Record("kk", "aab")]
  {
    var rs := [Record("k", ""), Record("kk", "ab")];
    var s0 := Initial(rs);
    var s1 := State(false, "", true, 0, 3, rs);
    var t := State(false, "", true, 1, 3, rs);
    ToggleEditing(s0);
    assert Run(s0, [KeyCtrlN]) == Run(s1, []);
    MoveDown(s1);
    NextWhileEditing(t, KeyDelete);
    RemoveAtMinusOne("ab");
    assert RemoveAt("ab", -1) == "aab";
    PutAt(rs, 1, "aab");
  }

  /** Off the value the round trip of `TypeThenBackspace` fails. With the
      cursor at column 3 of `"kk: ab"` (reached as in `DownLeavesValue`),
      typing `c` computes the offset -1 and `value[:-1] + "c" + value[-1:]`
      gives `"acb"`; the cursor moves to column 4, the start of the value,
      so the Backspace that follows does nothing. */
  lemma TypeOffValue()
    ensures var s := State(false, "", true, 1, 3, [Record("k", ""), Record("kk", "ab")]);
      var t := Next(s, 99);
      !CursorInValue(s)
      && t == s.(records := [Record("k", ""), Record("kk", "acb")], cursorPosition := 4)
      && Next(t, KeyBackspace) == t && t != s
  {
    var rs := [Record("k", ""), Record("kk", "ab")];
    var s := State(false, "", true, 1, 3, rs);
    NextWhileEditing(s, 99);
    assert InsertAt("ab", -1, 'c') == "acb";
    var t := s.(records := [Record("k", ""), Record("kk", "acb")], cursorPosition := 4);
    assert rs[1 := Record("kk", "acb")] == t.records;
    NextWhileEditing(t, KeyBackspace);
    assert t.records[1] != s.records[1];
  }

  /** Left and Right move the cursor by one column within the value and
      stop at its ends; neither changes the mapping or the line, and a
      cursor on the value stays on it. */
  lemma MoveLeftRight(s: State, ch: nat)
    requires EditingOn(s) && (ch == KeyLeft || ch == KeyRight)
    ensures var t := Next(s, ch);
      var start, end := ValueStart(s.records, s.cursorLine), LineEnd(s.records, s.cursorLine);
      t.records == s.records && t.cursorLine == s.cursorLine && t.editing
      && (CursorInValue(s) ==> CursorInValue(t))
      && (ch == KeyLeft ==>
            if s.cursorPosition > start then t == s.(cursorPosition := s.cursorPosition - 1) else t == s)
      && (ch == KeyRight ==>
            if s.cursorPosition < end then t == s.(cursorPosition := s.cursorPosition + 1) else t == s)
  {
  }

  // ------------------------------------------------------------------ edits

  /** `TypeChar` with the cursor on the value, in plain sequence terms. */
  lemma TypeCharInValue(s: State, c: char)
    requires ValidState(s) && |s.records| > 0
    requires ValueStart(s.records, s.cursorLine) <= s.cursorPosition <= LineEnd(s.records, s.cursorLine)
    ensures var line, pos := s.cursorLine, s.cursorPosition;
      var v := s.records[line].value;
      var o := pos - ValueStart(s.records, line);
      TypeChar(s, c) == s.(records := s.records[line := Record(s.records[line].key, v[..o] + [c] + v[o..])],
                           cursorPosition := pos + 1)
  {
    InsertAtSplices(s.records[s.cursorLine].value, s.cursorPosition - ValueStart(s.records, s.cursorLine), c);
  }

  /** `EraseBefore` with the cursor on the value, in plain sequence terms. */
  lemma EraseBeforeInValue(s: State)
    requires ValidState(s) && |s.records| > 0
    requires ValueStart(s.records, s.cursorLine) < s.cursorPosition <= LineEnd(s.records, s.cursorLine)
    ensures var line, pos := s.cursorLine, s.cursorPosition;
      var v := s.records[line].value;
      var o := pos - ValueStart(s.records, line);
      EraseBefore(s) == s.(records := s.records[line := Record(s.records[line].key, v[..o - 1] + v[o..])],
                           cursorPosition := pos - 1)
  {
    RemoveBeforeSplices(s.records[s.cursorLine].value, s.cursorPosition - ValueStart(s.records, s.cursorLine));
  }

  /** `EraseAt` with the cursor on a character of the value, in plain sequence terms. */
  lemma EraseAtInValue(s: State)
    requires ValidState(s) && |s.records| > 0
    requires ValueStart(s.records, s.cursorLine) <= s.cursorPosition < LineEnd(s.records, s.cursorLine)
    ensures var line, pos := s.cursorLine, s.cursorPosition;
      var v := s.records[line].value;
      var o := pos - ValueStart(s.records, line);
      EraseAt(s) == s.(records := s.records[line := Record(s.records[line].key, v[..o] + v[o + 1..])])
  {
    RemoveAtSplices(s.records[s.cursorLine].value, s.cursorPosition - ValueStart(s.records, s.cursorLine));
  }

  /** A typed code (Enter among them, as `chr(10)` or `chr(13)`) is spliced
      into the current value at the cursor, and the cursor moves past it. */
  lemma {:induction false} TypeKey(s: State, ch: nat)
    requires EditingOn(s) && CursorInValue(s) && IsTyped(ch)
    ensures var line, pos := s.cursorLine, s.cursorPosition;
      var key, v := s.records[line].key, s.records[line].value;
      var o := pos - ValueStart(s.records, line);
      var t := Next(s, ch);
      t == s.(records := s.records[line := Record(key, v[..o] + [ch as char] + v[o..])],
              cursorPosition := pos + 1)
      && CursorInValue(t)
  {
    NextWhileEditing(s, ch);
    TypeCharInValue(s, ch as char);
  }

  /** Backspace removes the character before the cursor and moves the cursor
      back, and does nothing at the start of the value. */
  lemma {:induction false} BackspaceKey(s: State)
    requires EditingOn(s) && CursorInValue(s)
    ensures var line, pos := s.cursorLine, s.cursorPosition;
      var key, v := s.records[line].key, s.records[line].value;
      var o := pos - ValueStart(s.records, line);
      var t := Next(s, KeyBackspace);
      (o > 0 ==> t == s.(records := s.records[line := Record(key, v[..o - 1] + v[o..])],
                         cursorPosition := pos - 1))
      && (o == 0 ==> t == s)
      && CursorInValue(t)
  {
    NextWhileEditing(s, KeyBackspace);
    if s.cursorPosition > ValueStart(s.records, s.cursorLine) {
      EraseBeforeInValue(s);
    }
  }

  /** Delete removes the character under the cursor when there is one and
      keeps the cursor where it is; at the end of the value it does nothing. */
  lemma {:induction false} DeleteKey(s: State)
    requires EditingOn(s) && CursorInValue(s)
    ensures var line, pos := s.cursorLine, s.cursorPosition;
      var key, v := s.records[line].key, s.records[line].value;
      var o := pos - ValueStart(s.records, line);
      var t := Next(s, KeyDelete);
      (o < |v| ==> t == s.(records := s.records[line := Record(key, v[..o] + v[o + 1..])]))
      && (o == |v| ==> t == s)
      && CursorInValue(t)
  {
    NextWhileEditing(s, KeyDelete);
    if s.cursorPosition < LineEnd(s.records, s.cursorLine) {
      EraseAtInValue(s);
    }
  }

  /** Backspace right after typing a character gives back the state before
      it: the same value, the same cursor. */
  lemma {:induction false} TypeThenBackspace(s: State, ch: nat)
    requires EditingOn(s) && CursorInValue(s) && IsTyped(ch)
    ensures Next(Next(s, ch), KeyBackspace) == s
  {
    var line, pos := s.cursorLine, s.cursorPosition;
    var rs := s.records;
    var key, v := rs[line].key, rs[line].value;
    var o := pos - ValueStart(rs, line);
    var w := InsertAt(v, o, ch as char);
    TypeKey(s, ch);
    var t := Next(s, ch);
    assert t.records[line] == Record(key, w);
    BackspaceKey(t);
    InsertThenRemoveBefore(v, o, ch as char);
    assert t.records[line := Record(key, v)] == rs;
  }

  /** A key that is neither a line move nor the editing toggle keeps a
      cursor that is on the value on the (possibly edited) value. */
  lemma {:induction false} EditingKeepsCursorInValue(s: State, ch: nat)
    requires EditingOn(s) && CursorInValue(s)
    requires ch != KeyEsc && ch != KeyCtrlN && ch != KeyUp && ch != KeyDown
    ensures CursorInValue(Next(s, ch))
  {
    if ch == KeyLeft || ch == KeyRight {
      MoveLeftRight(s, ch);
    } else if ch == KeyBackspace {
      BackspaceKey(s);
    } else if ch == KeyDelete {
      DeleteKey(s);
    } else if ch < 256 {
      TypeKey(s, ch);
    }
  }

  // ------------------------------------------------------ the loop as a whole

  /** The loop only ever ends in the quit menu on `:x` or `:q!`. */
  lemma {:induction false} RunEndsOnExitCommand(s: State, codes: seq<nat>)
    requires ValidState(s)
    ensures var (last, ended) := Run(s, codes);
      ended ==> last.quittingMenu && IsExitCommand(last.quitKey)
    decreases |codes|
  {
    if codes != [] && !Ends(s, codes[0]) {
      RunEndsOnExitCommand(Next(s, codes[0]), codes[1..]);
    }
  }

  /** The mapping is written back only when the loop ended on `:x`, never on
      `:q!` nor while the loop is still running; what is written back has
      the keys that were read, in the same order. */
  lemma {:induction false} SavedOnlyOnSave(records: seq<Record>, codes: seq<nat>)
    requires DistinctKeys(records)
    ensures var (last, ended) := Run(Initial(records), codes);
      (Saved(records, codes).Some? <==> ended && last.quitKey == ":x")
      && (Saved(records, codes).None? <==> !ended || last.quitKey == ":q!")
      && (Saved(records, codes).Some? ==> Keys(Saved(records, codes).value) == Keys(records))
  {
    RunEndsOnExitCommand(Initial(records), codes);
  }

  /** Running on `a + b` is running on `a` and then, unless the loop ended
      during `a`, on `b` from where `a` left off. */
  lemma {:induction false} RunConcat(s: State, a: seq<nat>, b: seq<nat>)
    requires ValidState(s)
    ensures Run(s, a + b) == if Run(s, a).1 then Run(s, a) else Run(Run(s, a).0, b)
    decreases |a|
  {
    if a == [] {
      assert a + b == b;
    } else {
      assert (a + b)[0] == a[0] && (a + b)[1..] == a[1..] + b;
      if !Ends(s, a[0]) {
        RunConcat(Next(s, a[0]), a[1..], b);
      }
    }
  }

  /** One key that does not end the loop, then the rest. */
  lemma RunStep(s: State, ch: nat, rest: seq<nat>)
    requires ValidState(s) && !Ends(s, ch)
    ensures Run(s, [ch] + rest) == Run(Next(s, ch), rest)
  {
    assert ([ch] + rest)[0] == ch && ([ch] + rest)[1..] == rest;
  }

  /** `X` typed between the `a` and the `b` of `Title: ab`. */
  lemma TypeX()
    ensures Next(State(false, "", true, 0, 8, [Record("Title", "ab")]), 88)
            == State(false, "", true, 0, 9, [Record("Title", "aXb")])
  {
    var s2 := State(false, "", true, 0, 8, [Record("Title", "ab")]);
    NextWhileEditing(s2, 88);
    TypeCharInValue(s2, 'X');
    assert "ab"[..1] + ['X'] + "ab"[1..] == "aXb";
  }

  /** Ctrl-N, Right and `X` on the record `Title: ab` give `Title: aXb`, with
      the cursor after the `X`. */
  lemma TypeIntoTitle()
    ensures Run(Initial([Record("Title", "ab")]), [KeyCtrlN, KeyRight, 88])
            == (State(false, "", true, 0, 9, [Record("Title", "aXb")]), false)
  {
    var rs := [Record("Title", "ab")];
    var s1 := State(false, "", true, 0, 7, rs);
    var s2 := State(false, "", true, 0, 8, rs);
    assert Next(Initial(rs), KeyCtrlN) == s1;
    NextWhileEditing(s1, KeyRight);
    assert Next(s1, KeyRight) == s2;
    TypeX();
    assert [KeyCtrlN, KeyRight, 88] == [KeyCtrlN] + ([KeyRight] + ([88] + []));
    RunStep(Initial(rs), KeyCtrlN, [KeyRight] + ([88] + []));
    RunStep(s1, KeyRight, [88] + []);
    RunStep(s2, 88, []);
  }

  /** From any state with an empty command, Escape `:` `x` Enter ends the
      loop with the command `:x`, the mapping untouched. */
  lemma ConfirmSave(s: State)
    requires ValidState(s) && s.quitKey == ""
    ensures Run(s, [KeyEsc, 58, 120, 10]) == (s.(quittingMenu := true, quitKey := ":x"), true)
  {
    var m := s.(quittingMenu := true);
    EscapeOpensMenu(s);
    MenuTyping(m, 58);
    assert "" + [58 as char] == ":";
    MenuTyping(m.(quitKey := ":"), 120);
    assert ":" + [120 as char] == ":x";
    assert [KeyEsc, 58, 120, 10] == [KeyEsc] + ([58] + ([120] + [10]));
    RunStep(s, KeyEsc, [58] + ([120] + [10]));
    RunStep(m, 58, [120] + [10]);
    RunStep(m.(quitKey := ":"), 120, [10]);
  }

  /** From any state with an empty command, Escape `:` `q` `!` Enter ends
      the loop with the command `:q!`, the mapping untouched. */
  lemma ConfirmDiscard(s: State)
    requires ValidState(s) && s.quitKey == ""
    ensures Run(s, [KeyEsc, 58, 113, 33, 13]) == (s.(quittingMenu := true, quitKey := ":q!"), true)
  {
    var m := s.(quittingMenu := true);
    EscapeOpensMenu(s);
    MenuTyping(m, 58);
    assert "" + [58 as char] == ":";
    MenuTyping(m.(quitKey := ":"), 113);
    assert ":" + [113 as char] == ":q";
    MenuTyping(m.(quitKey := ":q"), 33);
    assert ":q" + [33 as char] == ":q!";
    assert [KeyEsc, 58, 113, 33, 13] == [KeyEsc] + ([58] + ([113] + ([33] + [13])));
    RunStep(s, KeyEsc, [58] + ([113] + ([33] + [13])));
    RunStep(m, 58, [113] + ([33] + [13]));
    RunStep(m.(quitKey := ":"), 113, [33] + [13]);
    RunStep(m.(quitKey := ":q"), 33, [13]);
  }

  /** A whole session: switch editing on, step right, type `X`, open the
      quit menu and confirm `:x`; the edited mapping is written back. */
  lemma EditThenSave()
    ensures Saved([Record("Title", "ab")],
                  [KeyCtrlN, KeyRight, 88, KeyEsc, 58, 120, 10])
            == Some([Record("Title", "aXb")])
  {
    var rs := [Record("Title", "ab")];
    TypeIntoTitle();
    var s3 := State(false, "", true, 0, 9, [Record("Title", "aXb")]);
    ConfirmSave(s3);
    RunConcat(Initial(rs), [KeyCtrlN, KeyRight, 88], [KeyEsc, 58, 120, 10]);
    assert [KeyCtrlN, KeyRight, 88] + [KeyEsc, 58, 120, 10] == [KeyCtrlN, KeyRight, 88, KeyEsc, 58, 120, 10];
  }

  /** The same edit confirmed with `:q!` ends the loop and is discarded. */
  lemma EditThenDiscard()
    ensures var codes := [KeyCtrlN, KeyRight, 88, KeyEsc, 58, 113, 33, 13];
      Run(Initial([Record("Title", "ab")]), codes).1
      && Saved([Record("Title", "ab")], codes) == None
  {
    var rs := [Record("Title", "ab")];
    TypeIntoTitle();
    var s3 := State(false, "", true, 0, 9, [Record("Title", "aXb")]);
    ConfirmDiscard(s3);
    RunConcat(Initial(rs), [KeyCtrlN, KeyRight, 88], [KeyEsc, 58, 113, 33, 13]);
    assert [KeyCtrlN, KeyRight, 88] + [KeyEsc, 58, 113, 33, 13] == [KeyCtrlN, KeyRight, 88, KeyEsc, 58, 113, 33, 13];
  }
}
