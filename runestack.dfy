/** The rune stack of lesson_02/rune_stack.go: a slice of runes whose end is the top. */
module Lesson02RuneStack {
  class RuneStack {
    var data: seq<char>

    /** NewRuneStack: an empty stack. */
    constructor ()
      ensures data == []
    {
      data := [];
    }

    method IsEmpty() returns (empty: bool)
      ensures empty <==> |data| == 0
    {
      empty := |data| == 0;
    }

    /** Push puts `r` on top; everything below is unchanged. */
    method Push(r: char)
      modifies this
      ensures data == old(data) + [r]
      ensures |data| == |old(data)| + 1 && data[..|old(data)|] == old(data) && data[|data| - 1] == r
    {
      data := data + [r];
    }

    /** Pop on an empty stack gives (0, false) and changes nothing; otherwise it removes and returns the top only. */
    method Pop() returns (r: char, ok: bool)
      modifies this
      ensures |old(data)| == 0 ==> r == '\0' && !ok && data == old(data)
      ensures |old(data)| > 0 ==>
        ok && r == old(data)[|old(data)| - 1] && data == old(data)[..|old(data)| - 1]
    {
      var n := |data|;
      if n == 0 {
        return '\0', false;
      }
      var top := data[n - 1];
      data := data[..n - 1];
      return top, true;
    }
  }

  /** Push(r) then Pop() returns (r, true) and restores the previous contents. */
  method PushThenPop(s: RuneStack, r: char) returns (top: char, ok: bool)
    modifies s
    ensures top == r && ok && s.data == old(s.data)
  {
    s.Push(r);
    top, ok := s.Pop();
  }

  /** A new stack is empty, and stays empty after a Pop. */
  method NewIsEmpty() returns (empty: bool, popped: bool, emptyAfter: bool)
    ensures empty && !popped && emptyAfter
  {
    var s := new RuneStack();
    empty := s.IsEmpty();
    var _, ok := s.Pop();
    popped := ok;
    emptyAfter := s.IsEmpty();
  }
}
