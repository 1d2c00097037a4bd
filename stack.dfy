/** The engine's last-in first-out stack over a growable vector (stack.rs).
    The top of the stack is the last element of `data`. */
module Stacks {
  import opened Wrappers

  class Stack<T> {
    var data: seq<T>

    constructor ()
      ensures data == []
    {
      data := [];
    }

    method Len() returns (n: nat)
      ensures n == |data|
    {
      n := |data|;
    }

    method IsEmpty() returns (b: bool)
      ensures b <==> |data| == 0
    {
      b := |data| == 0;
    }

    /** The top element, or None on an empty stack. */
    method Peek() returns (top: Option<T>)
      ensures data == [] ==> top == None
      ensures data != [] ==> top == Some(data[|data| - 1])
    {
      if |data| == 0 {
        top := None;
      } else {
        top := Some(data[|data| - 1]);
      }
    }

    /** x becomes the new top: a following Peek returns Some(x) and Len is one larger. */
    method Push(x: T)
      modifies this
      ensures data == old(data) + [x]
    {
      data := data + [x];
    }

    /** Removes exactly the top element; on an empty stack it fails and changes nothing. */
    method Pop() returns (r: Result<()>)
      modifies this
      ensures old(data) == [] ==> r.Err? && data == old(data)
      ensures old(data) != [] ==> r.Ok? && data == old(data)[..|old(data)| - 1]
    {
      if |data| == 0 {
        r := Err(StackUnderflow);
      } else {
        data := data[..|data| - 1];
        r := Ok(());
      }
    }

    method Clear()
      modifies this
      ensures data == []
    {
      data := [];
    }
  }
}
