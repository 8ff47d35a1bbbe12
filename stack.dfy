/**
 * The return-address stack. The interpreter chains boxed frames from `top`; the model keeps
 * the values of those frames as a sequence whose first element is the top of the stack.
 */
module CallStack {
  import opened Wrappers
  import opened Words

  class Stack {
    var frames: seq<u16>

    constructor ()
      ensures frames == []
    {
      frames := [];
    }

    /** Puts `value` on top; the frames below are the old stack. */
    method Push(value: u16)
      modifies this
      ensures frames == [value] + old(frames)
    {
      frames := [value] + frames;
    }

    /** Takes the top value off, or reports `None` and leaves an empty stack empty. */
    method Pop() returns (top: Option<u16>)
      modifies this
      ensures old(frames) == [] ==> top == None && frames == []
      ensures old(frames) != [] ==> top == Some(old(frames)[0]) && frames == old(frames)[1..]
    {
      if frames == [] {
        top := None;
      } else {
        top := Some(frames[0]);
        frames := frames[1..];
      }
    }

    /** The top value, if there is one, without taking it off. */
    function Peak(): (top: Option<u16>)
      reads this
      ensures top.Some? <==> frames != []
      ensures top.Some? ==> top.value == frames[0]
    {
      if frames == [] then None else Some(frames[0])
    }
  }

  /** A push followed by a pop returns the pushed value and leaves the stack as it was. */
  method PushThenPop(s: Stack, value: u16) returns (popped: Option<u16>)
    modifies s
    ensures popped == Some(value) && s.frames == old(s.frames)
  {
    s.Push(value);
    popped := s.Pop();
  }
}
