# Rox-VM core, modelled in Dafny

Rox-VM is a bytecode interpreter for a Lox-like language, written in Rust. This
project models four of its components and proves properties about them:

- **The VM value stack `RawStack`** (`raw_stack.dfy`, module `Stack`). It is a
  fixed array of `STACK_MAX` = 256 optional slots, a `size` counter, and a raw
  top pointer. The model keeps the pointer as an integer offset `ptr` into the
  array.
  - Push, pop, peek, reset and the `Display` listing are methods or functions
    of the class `RawStack`.
  - A ghost predicate `Consistent` holds when `ptr == size` and every live slot
    holds a value. Push and pop preserve it.
  - A read or write the raw pointer would make outside the array is an explicit
    `OutOfBounds` outcome, not undefined behaviour.
- **The compiler's table of locals `Locals`** (`locals.dfy`, module `Frontend`).
  It is a fixed-capacity array of `Local { name, depth }` slots plus a `count`.
  - Each reverse scan (`remove_locals`, `local_is_doubly_declared`,
    `resolve_local`) is a `while` loop. Each is proved to compute a recursive
    specification function: `CountDeeper`, `DoublyDeclared` or `Resolution`.
  - Lemmas then characterise those functions.
- **The constant pool `Values` and the type dispatch of `Value`** (`value.dfy`,
  module `RoxValue`).
  - `write_value` appends to the pool. Given the table of global names, it
    deduplicates string globals.
  - Writing preserves the invariant `Indexed`: every recorded name points at
    the pool slot that holds that name's string.
  - Equality, ordering, negation and the four arithmetic operators are total
    case analyses over the variant.
  - The number type is opaque, and its own comparisons and arithmetic are
    parameters.
- **The lexer `Scanner::scan_tokens`** (`scanner.dfy`, module `Scanner`, and
  `scanner_facts.dfy`, module `ScannerFacts`).
  - The scanning loop runs over a `Peeker` cursor class. It is proved to
    compute `ScanLines`, a recursive specification of the whole scan.
  - `ScannerFacts` proves the per-character rules against reference tables:
    punctuation, two-character operators, whitespace, comments, string literals
    and the error tokens.
  - It also proves that tokens come in source order with 1-based lines and
    columns, and that the scan stops exactly when some line reaches an
    unfinished `todo!`.

`common.dfy` (module `Common`) holds the shared `Option`, `Result`, `Failure` and
`Exec` types. `tokens.dfy` (module `Tokens`) is a minimal stand-in for the token
types; their source, `rox/src/token.rs`, is not part of this model.

How failures are modelled:
- A Rust `panic!`, `todo!`, `expect`, failed index or arithmetic overflow
  becomes `Aborted(Panic(message))`. The message is the fixed text the Rust
  code prints; where Rust formats values into it (a failed index, the missing
  global of `write_value`), only the fixed part is kept. A panic unwinds; the
  model's state after an abort is where the source leaves it at the panic.
  `pop` moves the pointer before its decrement of `size` panics; every other
  operation panics before it writes anything, so its state is unchanged.
- Arithmetic is overflow-checked everywhere, as in a debug build: an
  underflowing `usize` subtraction is the panic "attempt to subtract with
  overflow" (`initialize_variable` on an empty table, `pop` with size 0). The
  one exception is `peek`, whose failure carries the guard's message (see
  "## Left out").
- A raw-pointer access outside the stack array becomes
  `Aborted(OutOfBounds(offset))`. What the Rust code does after such an access
  is undefined behaviour, so the model stops there.

Notes where the models differ from a plain reading:
- `remove_locals` counts every slot deeper than the given depth, not only a top
  run of such slots. The count equals the top run exactly when the table is
  well nested (`Frontend.NestedDeeperIsSuffix`). The model follows the code.
- The `(false, None)` answer of `resolve_local` cannot arise. Every slot below
  `count` was written by `Local::new`, which always sets a depth
  (`Frontend.ResolutionOfDeclared`).
- `Value` derives `Eq`, but its `PartialEq` makes `Error` unequal to itself
  (`RoxValue.EqIsPartialEquivalence` states exactly where reflexivity holds).
  The model follows the code.

## Model

| member | source | states |
|---|---|---|
| RoxValue.Eq | rox/src/value.rs:91-113 | Error equals nothing on either side; two numbers are equal exactly when the number equality says so; any other pair is equal exactly when the two values are identical (same variant, same bool, both Nil, same string). |
| RoxValue.EqIsPartialEquivalence | rox/src/value.rs:91-113 | Given a symmetric, transitive number equality, value equality is symmetric and transitive. A value equals itself exactly when it is not Error and, if a number, its own number equality holds. |
| RoxValue.PartialCmp | rox/src/value.rs:79-89 | An ordering exists only when both sides are numbers, and then it is the numbers' own ordering. |
| RoxValue.Neg | rox/src/value.rs:116-125 | Negation gives a number exactly for a number, namely the negated number; anything else gives Error. |
| RoxValue.Binary | rox/src/value.rs:127-193 | The result of + - * / is Error exactly when an operand is not a number; otherwise it is the number the arithmetic gives. |
| RoxValue.ErrorPropagates | rox/src/value.rs:127-193 | In a nested arithmetic expression with a non-number operand, the result is Error, and it is unequal to every value on either side. |
| RoxValue.IndexedAppend | rox/src/value.rs:70-75 | Appending a value to the pool keeps every recorded global index valid. |
| RoxValue.IndexedInsert | rox/src/value.rs:51-63 | Appending a name's string and recording its new index keeps the table faithful to the pool. |
| RoxValue.Values.constructor | rox/src/value.rs:20-25 | A new pool is empty with count 0. |
| RoxValue.Values.WriteValue | rox/src/value.rs:31-76 | The pool only grows at the end and count tracks its length. Without a table, or for a non-string, the value is appended and the old count returned. A known string returns its recorded index, leaving pool and table unchanged, or panics if the index is out of range. A new string is appended, and the table then maps it to its index. A faithful table stays faithful, and the returned index holds the value. |
| Stack.ListingOfLive | rox/src/raw_stack.rs:67-80 | When every slot holds a value, the display loop's text is the rendered values joined by ", ". |
| Stack.RawStack.constructor | rox/src/raw_stack.rs:11-19 | A new stack has size 0, every slot empty, the pointer at the base, and no live values. |
| Stack.RawStack.ResetStack | rox/src/raw_stack.rs:21-26 | As written: size becomes 0, slot 0 is copied to the pointer's slot, and the pointer does not move (a pointer one past the array is an out-of-bounds write). A consistent non-empty stack is no longer consistent afterwards. |
| Stack.RawStack.ResetStackFixed | rox/src/raw_stack.rs:21-26 | Corrected reset: the stack is consistent and empty, the pointer is at the base, and the slots are unchanged. |
| Stack.RawStack.Peek | rox/src/raw_stack.rs:28-39 | As written: distance > size panics. On a consistent stack, distance < size gives the value distance below the top, and distance == size reads offset -1, below the array. |
| Stack.RawStack.PeekChecked | rox/src/raw_stack.rs:28-39 | Corrected peek: distance >= size panics, every failure is a panic, and on a consistent stack a value comes back exactly when distance < size, namely the one distance below the top. |
| Stack.PeekGuardAdmitsSize | rox/src/raw_stack.rs:30-35 | On every consistent stack, peek(size) reads below the array, while the corrected peek panics. |
| Stack.RawStack.Push | rox/src/raw_stack.rs:41-51 | A full stack panics with the 256-slot message and nothing changes. Otherwise Some(value) is written at the pointer, size and pointer go up by one, and the other slots are unchanged. On a consistent stack, the live values grow by the value and stay consistent. |
| Stack.RawStack.Pop | rox/src/raw_stack.rs:53-64 | No slot changes. A pointer at the base gives a read below the array. With size 0 and the pointer above the base, the pointer moves down and then the decrement of size panics. Otherwise the pointer and size go down by one, and the result is the slot's value or the "Cannot pop from empty VM stack!" error. On a consistent non-empty stack, it returns the top value and removes it. On an empty one it fails. |
| Stack.RawStack.Show | rox/src/raw_stack.rs:67-80 | The display is "[" + the loop's listing of the live slots + "]". On a consistent stack, that is the rendered live values, bottom first, joined by ", ". |
| Stack.PushThenPop | rox/src/raw_stack.rs:41-64 | On a consistent stack with room, pop right after push returns the pushed value and restores size and live values. |
| Stack.PushThree | rox/src/raw_stack.rs:114-118 | Three pushes onto a new stack give live values [a, b, c], consistently. |
| Stack.PeekScenario | rox/src/raw_stack.rs:88-111 | After pushing a, b, c, peeks at 0, 1, 2 give c, b, a. Peek at 3, which the test expects to panic, reads offset -1. |
| Stack.DisplayScenario | rox/src/raw_stack.rs:113-122 | After pushing a, b, c, the display is "[a, b, c]" with each value rendered. |
| Stack.PopScenario | rox/src/raw_stack.rs:124-136 | After pushing a, b, c, four pops give c, b, a, and then a read below the array. |
| Stack.OverflowScenario | rox/src/raw_stack.rs:138-146 | Of 257 pushes onto a new stack, the first 256 succeed and the last panics with the maximum-size message. |
| Stack.ResetScenario | rox/src/raw_stack.rs:21-26 | As written: push a, push b, reset, push c. Peek then gives c while the display shows "[a]". |
| Stack.ResetFixedScenario | rox/src/raw_stack.rs:21-26 | With the corrected reset, the same steps display "[c]", and peek gives c. |
| Frontend.NewLocal | rox/src/frontend/locals.rs:12-17 | A new local has both its token and its depth set, to the given ones. |
| Frontend.CountDeeper | rox/src/frontend/locals.rs:48-62 | The number of slots deeper than the scope never exceeds the number of slots. |
| Frontend.NestedDeeperIsSuffix | rox/src/frontend/locals.rs:48-62 | In a well-nested table, the slots deeper than the scope are exactly the top CountDeeper ones. |
| Frontend.DoublyDeclaredMeans | rox/src/frontend/locals.rs:64-95 | For a table of declared identifiers and an identifier target, the redeclaration check is true exactly when some slot names the target and neither it nor any slot above it is in an enclosing scope. |
| Frontend.Innermost | rox/src/frontend/locals.rs:97-116 | The index found is the topmost slot naming the identifier; None means no slot names it. |
| Frontend.ResolutionOfDeclared | rox/src/frontend/locals.rs:97-116 | When every slot is declared, resolution never answers (false, None). |
| Frontend.Locals.constructor | rox/src/frontend/locals.rs:26-29 | A new table has count 0 and every slot is the default local with no name and no depth. |
| Frontend.Locals.Size | rox/src/frontend/locals.rs:31-33 | size returns count, which never exceeds the capacity, and changes nothing. |
| Frontend.Locals.InitializeVariable | rox/src/frontend/locals.rs:35-37 | On an empty table it panics on the overflow-checked subtraction `count - 1`. Otherwise only the depth of slot count-1 changes, to the given depth. |
| Frontend.Locals.AddLocal | rox/src/frontend/locals.rs:39-46 | A full table panics on the index and nothing changes. Otherwise slot count becomes the new local, count goes up by one, and the other slots are unchanged. |
| Frontend.Locals.RemoveLocals | rox/src/frontend/locals.rs:48-62 | It returns the number of slots below count that are deeper than the scope, and lowers count by exactly that much, with slots untouched. In a well-nested table, everything left is in the scope or outside it, and everything dropped is deeper. |
| Frontend.Locals.LocalIsDoublyDeclared | rox/src/frontend/locals.rs:64-95 | The top-down scan returns what DoublyDeclared specifies, including its two panics, and changes nothing. |
| Frontend.Locals.ResolveLocal | rox/src/frontend/locals.rs:97-116 | It returns Resolution of the table: found is always true. The index is the topmost slot naming the identifier, or None when no slot does. It changes nothing. |
| Scanner.Peeker.constructor | rox/src/scanner.rs:67 | A new cursor is at the start of the line. |
| Scanner.Peeker.PeekOr | rox/src/scanner.rs:30 | The character under the cursor, or a space at the end of the line. |
| Scanner.Peeker.IsAtEnd | rox/src/scanner.rs:16-21 | True exactly when nothing is left after the cursor. |
| Scanner.Peeker.Next | rox/src/scanner.rs:68 | Returns the index and character under the cursor and moves it on by one, or returns None at the end of the line and stays put. |
| Scanner.IndexOf | rox/src/scanner.rs:37-54 | The first index at or after the start that holds the character; None means the character does not occur there. |
| Scanner.StepAt | rox/src/scanner.rs:69-122 | Each turn of the scanning loop that emits or skips consumes at least one character and stays within the line. |
| Scanner.ScanToken | rox/src/scanner.rs:133-135 | The token carries the given type, line and column. |
| Scanner.CheckNext | rox/src/scanner.rs:23-35 | On the shared cursor: the second token type if the next character is the checked one (which is consumed), else the first. |
| Scanner.ReadString | rox/src/scanner.rs:37-54 | On the shared cursor: the characters up to the next quote, with that quote consumed. Without a closing quote, the rest of the line is consumed and the result is the unterminated-string error. |
| Scanner.SkipComment | rox/src/scanner.rs:105-113 | The cursor ends just after the next end-of-line character, or at the end of the line. |
| Scanner.ScanChar | rox/src/scanner.rs:69-122 | One turn of the match on the shared cursor does what StepAt specifies, and leaves the cursor where StepAt says scanning resumes. |
| Scanner.ScanTokens | rox/src/scanner.rs:63-131 | The tokens of the whole source are exactly ScanLines of its lines, numbered from 1. |
| ScannerFacts.PunctuationRule | rox/src/scanner.rs:69-79 | Each of ( ) { } , . - + ; * yields exactly its token with its 1-based column, and scanning resumes at the next character. |
| ScannerFacts.OperatorRule | rox/src/scanner.rs:80-103 | ! = > < followed by = yield the two-character token and consume both characters. Otherwise, including at the end of a line, they yield the one-character token. |
| ScannerFacts.WhitespaceRule | rox/src/scanner.rs:104 | A space, tab, carriage return or newline yields no token. |
| ScannerFacts.BlankLine | rox/src/scanner.rs:104 | A line of whitespace only yields no token. |
| ScannerFacts.CommentRule | rox/src/scanner.rs:105-113 | // discards the rest of the line and yields no token. |
| ScannerFacts.SlashRule | rox/src/scanner.rs:105-117 | A / not followed by / yields Slash. |
| ScannerFacts.StringRule | rox/src/scanner.rs:37-54 | A quote yields the literal of the characters up to the next quote, without quotes, and scanning resumes after the closing quote. |
| ScannerFacts.UnterminatedRule | rox/src/scanner.rs:50-52 | A quote with no closing quote on the line yields the unterminated-string error as the line's last token. |
| ScannerFacts.UnexpectedRule | rox/src/scanner.rs:121-124 | Any other character that is not a digit or a letter yields the unexpected-character error token, and scanning goes on. |
| ScannerFacts.TodoRule | rox/src/scanner.rs:55-61 | A digit or an ASCII letter stops the scan with a panic. |
| ScannerFacts.LexFromPositions | rox/src/scanner.rs:124 | The tokens of a line carry its line number and columns within the line, strictly increasing. |
| ScannerFacts.ScanLinesInOrder | rox/src/scanner.rs:66-68 | The tokens of a source come in source order. Line numbers lie within the source's lines and never decrease, and columns increase within a line and are at least 1. |
| ScannerFacts.ScanAbortsIff | rox/src/scanner.rs:63-131 | The scan of a source stops exactly when the scan of one of its lines does. |
| ScannerFacts.ExampleLine | rox/src/scanner.rs:69-118 | The line `(!= "hi" // c` yields LeftParen at column 1, BangEqual at 2, and the literal "hi" at 5. |
| ScannerFacts.Example | rox/src/scanner.rs:63-131 | That line followed by `*` yields those three tokens and then Star at line 2, column 1. |

## Left out

- Output: every `DEBUG_MODE` `println!` is left out, and so is the final token dump of `scan_tokens`. They print and change nothing.
- Numbers: `RoxNumber` (a 32-bit float wrapper) is an opaque type. Its equality, ordering, negation and arithmetic are function parameters, so the model checks the variant dispatch but not the float arithmetic. Number formatting is also left out.
- Display: the `Display` of `Value` is a `render` parameter of `RawStack.Show`.
- RoxValue.Values.WriteValue: it returns the index, not the `&mut Value` reference. It states that the slot at the index holds the value whenever the table is faithful.
- RoxValue.Values.WriteValue: the panic message omits the name and index that the source formats into it.
- Frontend.Locals.AddLocal: the panic message is the fixed part "index out of bounds"; Rust's message goes on with the length and the index.
- The table of globals is a Dafny `map` that is passed in and handed back. The hashtable's own source is not part of this model.
- `LOCALS_COUNT`, whose definition module is not part of this model, is the `capacity` parameter of the `Locals` constructor.
- The shared `Peeker` cursor counts characters, and the source is given as a sequence of lines. `str::lines` is not modelled, nor is the byte offset of `char_indices`, which agrees with the character index for ASCII text.
- Stack.RawStack.Peek: the model follows the overflow-checked build's outcome, in which every distance > size panics, but it gives the guard's message "Cannot peek beyond bottom of stack!"; the checked build panics on the subtraction `size - distance` with "attempt to subtract with overflow" instead. An unchecked build wraps the subtraction, and when distance > size + 2^63 the wrapped value cast to a signed integer is not negative, so the guard passes. For example, `peek(usize::MAX)` computes the offset 0 and reads the slot at the pointer, which can hold a stale value that `pop` left behind. That unchecked behaviour is not modelled.
- Frontend.Locals.InitializeVariable: on an empty table the model gives the overflow-checked build's "attempt to subtract with overflow". An unchecked build wraps `count - 1` to `usize::MAX` and panics on the index instead, with "index out of bounds"; either way nothing is written.
- Stack.RawStack.Pop: the model takes overflow-checked arithmetic. Popping with size 0 while the pointer is above the base, which only a reset can cause, moves the pointer down and then panics on the subtraction. An unchecked build would instead wrap `size`, and the model does not cover that.
- After a panic the model stops: whatever code would run during or after unwinding is not modelled. A read or write outside the stack array is undefined behaviour, and the model stops at the access. The Rust code goes on: after the read below the array in `pop`, `self.size -= 1` runs, and in an overflow-checked build that is the panic `test_pop` relies on; after a wild read in `peek`, the `expect` runs on whatever was read. Neither continuation is modelled.
- `Scanner.ScanChar` has no counterpart function in the source. It is the body of the `match ch` in `scan_tokens`, split out so it can be specified.
- `Scanner::new` and the empty `Scanner` struct carry no state and are not modelled.
- The chunk, VM, opcode, object-list and hashtable modules are not part of this model: `rox/src/lib.rs:1-16` declares them, but their source is not available.
- `rox/src/compiler.rs` only prints and holds boxed closures, so it is not modelled.

## Findings

| source | as written | input that shows it | evidently intended | confidence | as-written member | corrected member |
|---|---|---|---|---|---|---|
| rox/src/raw_stack.rs:30-35 | The guard of `peek` rejects only `distance > size`, so `distance == size` passes and reads one slot below the array. | push three values, then `peek(3)` (the call `test_peek_panic` expects to panic) | every `distance >= size` panics | not executed | Stack.RawStack.Peek, Stack.PeekGuardAdmitsSize, Stack.PeekScenario | Stack.RawStack.PeekChecked |
| rox/src/raw_stack.rs:21-26 | `reset_stack` sets `size` to 0 and writes slot 0 through the pointer, but leaves the pointer where it was. | push `a`, push `b`, reset, push `c`: `peek(0)` gives `c` while the display shows `[a]` | the pointer returns to the base, so the stack is empty and consistent | not executed | Stack.RawStack.ResetStack, Stack.ResetScenario | Stack.RawStack.ResetStackFixed, Stack.ResetFixedScenario |
