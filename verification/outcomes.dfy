/** Optional values and the results of operations that the interpreter
    performs without any check.

    Where the interpreter would index an array out of bounds, or wrap its
    uint8_t stack pointer below zero, its behaviour is undefined; the model
    returns `Err` with the kind of violation instead of a state. */
module Outcomes {

  datatype Option<+T> = None | Some(value: T)

  datatype Fault =
    | RomTooLarge          // the ROM does not fit between 0x200 and the end of memory
    | MemoryOutOfBounds    // a memory index at or past MEMORY_SIZE
    | DisplayOutOfBounds   // a display index at or past 64 * 32
    | KeypadOutOfBounds    // a keypad index at or past 16
    | StackUnderflow       // return with an empty stack
    | StackOverflow        // call with a full stack, or a stack pointer past the stack

  datatype Result<+T> = Ok(value: T) | Err(fault: Fault) {

    predicate IsFailure() {
      Err?
    }

    function PropagateFailure<U>(): Result<U>
      requires Err?
    {
      Err(fault)
    }

    function Extract(): T
      requires Ok?
    {
      value
    }
  }
}
