/** The three edits the editor makes to a value, each written with the same
    slice expressions as the program. The offset `o` is the cursor column
    minus the column where the value starts on its line, `len(key) + 2`; the
    edits are total, because Python's slicing is, and the lemmas say what
    they do when `o` lies inside the value and when it does not. */
module Splice {
  import opened Slicing

  /** A typed character: `value[:o] + c + value[o:]` (metacracker.py:152). */
  function InsertAt(v: string, o: int, c: char): (r: string)
    ensures |r| == |v| + 1
  {
    Prefix(v, o) + [c] + Suffix(v, o)
  }

  /** Backspace: `value[:o - 1] + value[o:]` (metacracker.py:140). */
  function RemoveBefore(v: string, o: int): (r: string)
    ensures 1 <= o ==> |r| <= |v|
  {
    Prefix(v, o - 1) + Suffix(v, o)
  }

  /** Delete: `value[:o] + value[o + 1:]` (metacracker.py:147). */
  function RemoveAt(v: string, o: int): (r: string)
    ensures 0 <= o ==> |r| <= |v|
  {
    Prefix(v, o) + Suffix(v, o + 1)
  }

  /** Typing always lengthens the value by one, wherever the cursor is; on
      the value it puts `c` at offset `o` and keeps everything around it. */
  lemma InsertAtSplices(v: string, o: int, c: char)
    ensures |InsertAt(v, o, c)| == |v| + 1
    ensures 0 <= o <= |v| ==> InsertAt(v, o, c) == v[..o] + [c] + v[o..]
  {
    PrefixSuffix(v, o);
  }

  /** Backspace at offset `o` (the program only runs it for `o >= 1`)
      removes the character before `o`, and does nothing past the end. */
  lemma RemoveBeforeSplices(v: string, o: int)
    requires 1 <= o
    ensures o <= |v| ==> RemoveBefore(v, o) == v[..o - 1] + v[o..] && |RemoveBefore(v, o)| == |v| - 1
    ensures o > |v| ==> RemoveBefore(v, o) == v
  {
  }

  /** Delete at offset `o` removes the character at `o`, and does nothing
      at or past the end. */
  lemma RemoveAtSplices(v: string, o: int)
    ensures 0 <= o < |v| ==> RemoveAt(v, o) == v[..o] + v[o + 1..] && |RemoveAt(v, o)| == |v| - 1
    ensures o >= |v| ==> RemoveAt(v, o) == v
  {
  }

  /** Typing adds exactly the typed character to the value, wherever the
      cursor is: at the end of the value, in an empty value, or off it. */
  lemma TypingAddsOneCharacter(v: string, o: int, c: char)
    ensures multiset(InsertAt(v, o, c)) == multiset(v) + multiset{c}
  {
    PrefixSuffix(v, o);
    assert InsertAt(v, o, c) == Prefix(v, o) + ([c] + Suffix(v, o));
  }

  /** Backspace and Delete on a character of the value remove exactly that
      one: neither loses or invents any other character. */
  lemma {:induction false} EditsKeepOtherCharacters(v: string, o: int)
    requires 0 <= o < |v|
    ensures multiset(RemoveBefore(v, o + 1)) + multiset{v[o]} == multiset(v)
    ensures multiset(RemoveAt(v, o)) + multiset{v[o]} == multiset(v)
  {
    RemoveBeforeSplices(v, o + 1);
    RemoveAtSplices(v, o);
    assert v == v[..o] + [v[o]] + v[o + 1..];
  }

  /** Backspace right after typing a character restores the value. */
  lemma {:induction false} InsertThenRemoveBefore(v: string, o: int, c: char)
    requires 0 <= o <= |v|
    ensures RemoveBefore(InsertAt(v, o, c), o + 1) == v
  {
    InsertAtSplices(v, o, c);
    var w := InsertAt(v, o, c);
    RemoveBeforeSplices(w, o + 1);
    assert w[..o] == v[..o];
    assert w[o + 1..] == v[o..];
    assert v[..o] + v[o..] == v;
  }

  /** Delete with the cursor left where the character was typed restores the value. */
  lemma {:induction false} InsertThenRemoveAt(v: string, o: int, c: char)
    requires 0 <= o <= |v|
    ensures RemoveAt(InsertAt(v, o, c), o) == v
  {
    InsertAtSplices(v, o, c);
    var w := InsertAt(v, o, c);
    RemoveAtSplices(w, o);
    assert w[..o] == v[..o];
    assert w[o + 1..] == v[o..];
    assert v[..o] + v[o..] == v;
  }

  /** With the cursor one column left of the value (`o == -1`), Delete does
      not remove anything: `value[:-1] + value[0:]` repeats all but the last
      character in front of the whole value. */
  lemma RemoveAtMinusOne(v: string)
    requires v != []
    ensures RemoveAt(v, -1) == v[..|v| - 1] + v
    ensures |RemoveAt(v, -1)| == 2 * |v| - 1
  {
  }
}
