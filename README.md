# rust-tdd-katas, three katas in Dafny

This project models three katas of the rust-tdd-katas repository and proves
what their code promises.

- **Calculator** (`calculator.dfy`, `calculator_examples.dfy`). This is the
  recursive-descent parser of `calculator_ast_kata/src/day_04.rs`. It reads
  an arithmetic expression over `+ - * /` into an `Ast`. The shared
  `Peekable<Chars>` cursor becomes an index into the input, which each method
  takes and hands back. `ParseNum`, `ParseTerm` and `FromStr` follow the
  source's loops and breaks, and each is proved equal to a specification
  function with the same control flow (`NumberAt`, `TermAt`, `Parse`).
  `ParseLowOp` and `ParseHighOp` have no loop; their contracts state their
  behaviour directly. The lemmas then say what a parse means:
  - `Ok(t)` comes back exactly when `t` is a well-formed tree whose in-order
    text is the whole input.
  - `Err` comes back exactly when the input is a single operand that is not a
    number.
  - Every other input panics at one of the source's `unwrap` calls.
  - Every tree respects precedence and groups each level from the left.

  The unit tests of the file are lemmas about `Parse`.
- **Linked stack** (`linked_stack.dfy`). This is the singly linked LIFO stack
  of `linked_stack_kata/src/day_10.rs`.
  - Nodes are heap objects. The chain from `head` is tracked by a ghost
    sequence of nodes, so the stack's contents are read off the nodes
    themselves.
  - It models `push`, `pop`, `default`, `from_iter` and the three iterators.
    The consuming iterator owns the stack. The shared-reference iterator
    walks the chain. The mutable-reference iterator hands out the nodes, so a
    write through it lands in the stack.
  - The tests are methods with concrete results.
- **LCD display** (`lcd.dfy`). This is the digit decoder and `Display` of
  `src/lcd_kata/day_6.rs`.
  - `VecDigit::from_str` is a loop, proved equal to the recursive `Decode`.
  - `Display` is a class whose `input` field `Input` overwrites and `Output`
    only reads.

`wrappers.dfy` holds the `Option` and `Result` datatypes shared by the
modules.

## Model

| member | source | states |
|---|---|---|
| Calculator.NumberLoop | calculator_ast_kata/src/day_04.rs:13-25 | the scan loop of `parse_num` never moves the cursor back or past the end, and never panics |
| Calculator.NumberAt | calculator_ast_kata/src/day_04.rs:11-26 | `parse_num` ends within the input, at or after where it began, with a leaf or an error but never a panic |
| Calculator.TermLoop | calculator_ast_kata/src/day_04.rs:44-51 | the loop of `parse_term` never moves the cursor back or past the end |
| Calculator.TermAt | calculator_ast_kata/src/day_04.rs:42-52 | `parse_term` ends within the input, at or after where it began |
| Calculator.ExprLoop | calculator_ast_kata/src/day_04.rs:61-68 | the loop of `from_str` never moves the cursor back or past the end |
| Calculator.ExprAt | calculator_ast_kata/src/day_04.rs:58-69 | the body of `from_str` ends within the input |
| Calculator.IsFloatLiteral | calculator_ast_kata/src/day_04.rs:23-25 | whether `f64::from_str` accepts the run: the grammar the Rust standard library documents, as an automaton over the lower-cased characters |
| Calculator.Parse | calculator_ast_kata/src/day_04.rs:58-69 | the outcome of `from_str`: a tree, `Err` or a panic, as `ParseOutcomes` characterises |
| Calculator.FloatLiteralNonEmpty | calculator_ast_kata/src/day_04.rs:23-25 | `f64::from_str` rejects the empty string, so every number has a character |
| Calculator.ParseNum | calculator_ast_kata/src/day_04.rs:11-26 | takes the longest run with no `+`, `*`, `/` and no `-` after its first character; the cursor stops on the character that ended the run, or at the end; the result is the leaf of that run exactly when the run is a float literal, and `Err` otherwise; it agrees with `NumberAt` |
| Calculator.ParseLowOp | calculator_ast_kata/src/day_04.rs:28-33 | consumes and returns the next character exactly when it is `+` or `-`; otherwise returns `None` and leaves the cursor, also at the end of input |
| Calculator.ParseHighOp | calculator_ast_kata/src/day_04.rs:35-40 | the same for `*` and `/` |
| Calculator.ParseTerm | calculator_ast_kata/src/day_04.rs:42-52 | the method's loop, including its two panics at `unwrap`, yields exactly the result and cursor of `TermAt` |
| Calculator.FromStr | calculator_ast_kata/src/day_04.rs:58-69 | the method's loop, including its panics at `unwrap`, yields exactly `Parse(s)`, whose meaning `ParseOutcomes` states |
| Calculator.NumberLoopStops | calculator_ast_kata/src/day_04.rs:13-25 | the scan stops at the first position that ends the number, or at the end, and converts exactly the characters it took |
| Calculator.NumberAtIs | calculator_ast_kata/src/day_04.rs:11-26 | if `q` is the first position that ends a number begun at `start`, `parse_num` stops at `q` with the leaf of `s[start..q]` or `Err` |
| Calculator.ScanOperand | calculator_ast_kata/src/day_04.rs:11-26 | an operand written in the input and followed by an operator or the end is scanned back as exactly that leaf |
| Calculator.NumberSound | calculator_ast_kata/src/day_04.rs:11-26 | a successful scan returns the leaf of the characters it took, these form an operand, and the scan stops on an operator or at the end |
| Calculator.OperandByCharacters | calculator_ast_kata/src/day_04.rs:13-25 | an operand is, by its characters alone, a float literal with no `+`, `*`, `/` and no `-` after its first character |
| Calculator.TermLoopStep | calculator_ast_kata/src/day_04.rs:44-50 | one round of `parse_term`'s loop: the operand after `*` or `/` becomes the right child, the tree so far the left |
| Calculator.ExprLoopStep | calculator_ast_kata/src/day_04.rs:61-67 | one round of `from_str`'s loop: the term after `+` or `-` becomes the right child, the tree so far the left |
| Calculator.TermHasNoLowOp | calculator_ast_kata/src/day_04.rs:42-52 | a term contains no `+` or `-` node |
| Calculator.ExprRespectsPrecedence | calculator_ast_kata/src/day_04.rs:42-69 | in a well-formed expression no `+`/`-` node is under a `*`/`/` node |
| Calculator.TermRespectsPrecedence | calculator_ast_kata/src/day_04.rs:42-52 | the same for a term |
| Calculator.ExprIsLeftAssociative | calculator_ast_kata/src/day_04.rs:58-69 | in a well-formed expression no node has a right child of its own level, so `a-b-c` groups as `(a-b)-c` |
| Calculator.TermIsLeftAssociative | calculator_ast_kata/src/day_04.rs:42-52 | the same for `*` and `/` within a term |
| Calculator.TermLoopSound | calculator_ast_kata/src/day_04.rs:44-51 | when `parse_term`'s loop ends with a tree, the tree is a well-formed term, its text is what was consumed, and the cursor is at `+`, `-` or the end |
| Calculator.TermSound | calculator_ast_kata/src/day_04.rs:42-52 | a successful `parse_term` returns a well-formed term whose text is exactly the consumed input, and it stops before `+`, `-` or the end |
| Calculator.ExprLoopSound | calculator_ast_kata/src/day_04.rs:61-68 | when `from_str`'s loop ends with a tree, the tree is a well-formed expression whose text is the whole input |
| Calculator.ParseSound | calculator_ast_kata/src/day_04.rs:58-69 | a successful parse is a well-formed expression whose in-order text is the whole input, so nothing is left over |
| Calculator.SpelledLeft | calculator_ast_kata/src/day_04.rs:44-49 | the text of a node is its left child's text, the operator, then the right child's text |
| Calculator.TermCompleteLeaf | calculator_ast_kata/src/day_04.rs:43 | a written operand is the first tree of `parse_term` |
| Calculator.TermLeft | calculator_ast_kata/src/day_04.rs:45-47 | the left child of a written term node is itself a written term |
| Calculator.ExprLeft | calculator_ast_kata/src/day_04.rs:62-64 | the left child of a written expression node that is not a term is itself a written expression |
| Calculator.TermRight | calculator_ast_kata/src/day_04.rs:44-48 | after the left child of a written term node come its `*` or `/` and the scan of its right operand |
| Calculator.TermNodeStep | calculator_ast_kata/src/day_04.rs:44-50 | given that operator and operand, `parse_term`'s loop goes from the left child to the node |
| Calculator.TermLoopExtends | calculator_ast_kata/src/day_04.rs:44-50 | after the left child of a written term node, `parse_term`'s loop goes on to build the node |
| Calculator.TermCompleteNode | calculator_ast_kata/src/day_04.rs:44-50 | if `parse_term` reaches the left child, it reaches the whole node |
| Calculator.TermComplete | calculator_ast_kata/src/day_04.rs:42-52 | a well-formed term written at a position is built back by `parse_term`, which then stands where the term's text ends |
| Calculator.TermCompleteStops | calculator_ast_kata/src/day_04.rs:42-52 | a written term followed by `+`, `-` or the end is the whole answer of `parse_term` |
| Calculator.ExprRight | calculator_ast_kata/src/day_04.rs:61-65 | after the left child of a written expression node come its `+` or `-` and `parse_term` of its right child |
| Calculator.ExprNodeStep | calculator_ast_kata/src/day_04.rs:61-67 | given that operator and term, `from_str`'s loop goes from the left child to the node |
| Calculator.ExprLoopExtends | calculator_ast_kata/src/day_04.rs:61-67 | after the left child of a written expression node, `from_str`'s loop goes on to build the node |
| Calculator.ExprCompleteTerm | calculator_ast_kata/src/day_04.rs:60 | a written expression that is a single term is the first tree of `from_str` |
| Calculator.ExprComplete | calculator_ast_kata/src/day_04.rs:58-69 | a well-formed expression written at a position is built back by `from_str`'s loop |
| Calculator.ParseComplete | calculator_ast_kata/src/day_04.rs:58-69 | parsing the text of any well-formed expression gives that expression back |
| Calculator.ParseExactly | calculator_ast_kata/src/day_04.rs:58-69 | `Parse(s) == Ok(t)` if and only if `t` is well-formed and its text is `s` |
| Calculator.TermLoopNotErr | calculator_ast_kata/src/day_04.rs:44-51 | once `parse_term` holds a tree, it ends with a tree or a panic, never with `Err` |
| Calculator.ExprLoopNotErr | calculator_ast_kata/src/day_04.rs:61-68 | once `from_str` holds a tree, it ends with a tree or a panic, never with `Err` |
| Calculator.ParseSingleOperand | calculator_ast_kata/src/day_04.rs:58-69 | an input the first scan takes whole parses to its leaf when it is a number and to `Err` otherwise, so a leading `-` is the number's sign |
| Calculator.FirstOperandFailurePanics | calculator_ast_kata/src/day_04.rs:43-47 | when the first operand fails and an operator follows, the parse panics at `unwrap` |
| Calculator.ParseErrExactly | calculator_ast_kata/src/day_04.rs:58-69 | `Parse(s)` is `Err` if and only if the first scan takes all of `s` and `s` is no float literal |
| Calculator.ParseOutcomes | calculator_ast_kata/src/day_04.rs:58-69 | `Ok` if and only if `s` is the text of a well-formed expression; `Err` if and only if `s` is a single non-number; a panic if and only if `s` has an operator but no well-formed reading |
| Calculator.ParseShape | calculator_ast_kata/src/day_04.rs:42-69 | every tree `from_str` returns respects precedence and groups both levels from the left |
| Calculator.DigitsStayWhole | calculator_ast_kata/src/day_04.rs:23 | digits after the first digit keep a number in its whole part |
| Calculator.IntegerIsOperand | calculator_ast_kata/src/day_04.rs:23-25 | every decimal integer, with an optional `-`, is accepted by `f64::from_str` and taken whole by the scan |
| CalculatorExamples.NotANumber | calculator_ast_kata/src/day_04.rs:79-82 | `"abc"` gives `Err` |
| CalculatorExamples.EmptyInput | calculator_ast_kata/src/day_04.rs:11-26 | `""` gives `Err`: the empty operand is no number |
| CalculatorExamples.SingleNumber | calculator_ast_kata/src/day_04.rs:84-87 | `"1"` gives the leaf `1` |
| CalculatorExamples.NegativeNumber | calculator_ast_kata/src/day_04.rs:89-92 | `"-5"` gives the leaf `-5` |
| CalculatorExamples.BinaryNode | calculator_ast_kata/src/day_04.rs:94-140 | one operator between two integers gives one node over two leaves |
| CalculatorExamples.Addition | calculator_ast_kata/src/day_04.rs:94-104 | `"4+3"` gives `+` over `4` and `3` |
| CalculatorExamples.Subtraction | calculator_ast_kata/src/day_04.rs:106-116 | `"5-2"` gives `-` over `5` and `2`; a `-` after a number is an operator |
| CalculatorExamples.Multiplication | calculator_ast_kata/src/day_04.rs:118-128 | `"5*8"` gives `*` over `5` and `8` |
| CalculatorExamples.Division | calculator_ast_kata/src/day_04.rs:130-140 | `"9/3"` gives `/` over `9` and `3` |
| CalculatorExamples.MultipleOperations | calculator_ast_kata/src/day_04.rs:142-164 | `"3-8*2+45/5"` gives `+(-(3, *(8, 2)), /(45, 5))` |
| CalculatorExamples.LeadingOperatorPanics | calculator_ast_kata/src/day_04.rs:58-65 | `"+3"` panics: the empty first operand is an error, and `from_str` unwraps it |
| CalculatorExamples.FailedOperandPanics | calculator_ast_kata/src/day_04.rs:42-48 | `"a*3"` panics: `parse_term` unwraps the failed first operand |
| CalculatorExamples.NegativeExponentPanics | calculator_ast_kata/src/day_04.rs:13-25 | `"1e-5"` panics: the scan stops at the exponent's `-`, and `1e` is no number |
| LinkedStack.Node.constructor | linked_stack_kata/src/day_10.rs:10-14 | a new node holds the given item and link |
| LinkedStack.ChainDetermined | linked_stack_kata/src/day_10.rs:3-8 | the links from a node determine the chain of nodes that ends in `None` |
| LinkedStack.ChainSuffix | linked_stack_kata/src/day_10.rs:3-8 | every suffix of a chain is the chain from its first node |
| LinkedStack.ChainNoRepeat | linked_stack_kata/src/day_10.rs:3-8 | a chain that ends in `None` never revisits a node |
| LinkedStack.ChainUnique | linked_stack_kata/src/day_10.rs:3-8 | the node at any position of a chain occurs at no other position |
| LinkedStack.Reverse | linked_stack_kata/src/day_10.rs:60-70 | the order in which pushed items come back: the same length, and position `i` holds the item `i` places from the end |
| LinkedStack.ReverseReverse | linked_stack_kata/src/day_10.rs:60-70 | reversing twice gives back the original order |
| LinkedStack.Stack.Default | linked_stack_kata/src/day_10.rs:33-37 | the default stack is empty |
| LinkedStack.Stack.Push | linked_stack_kata/src/day_10.rs:28-30 | the item goes on top on a fresh node, and the rest of the chain is the old chain, untouched |
| LinkedStack.Stack.Pop | linked_stack_kata/src/day_10.rs:21-26 | `None` and no change on an empty stack; otherwise the top item, and the stack loses exactly its first node |
| LinkedStack.Stack.IntoIter | linked_stack_kata/src/day_10.rs:39-46 | the consuming iterator takes this stack over |
| LinkedStack.Stack.Iter | linked_stack_kata/src/day_10.rs:78-85 | the shared-reference iterator starts at the head, with the whole chain to come |
| LinkedStack.Stack.IterMut | linked_stack_kata/src/day_10.rs:108-115 | the mutable-reference iterator starts at the head, with the whole chain to come |
| LinkedStack.FromIter | linked_stack_kata/src/day_10.rs:60-70 | pushes the items in iteration order onto a new stack, so its contents are the items reversed, the last one on top |
| LinkedStack.StackIter.constructor | linked_stack_kata/src/day_10.rs:43-44 | the iterator owns the given stack |
| LinkedStack.StackIter.Next | linked_stack_kata/src/day_10.rs:52-58 | each `next` is a `pop`: the next item, then `None` for good |
| LinkedStack.StackRefIter.constructor | linked_stack_kata/src/day_10.rs:82-83 | the iterator holds the given link and the chain from it |
| LinkedStack.StackRefIter.Next | linked_stack_kata/src/day_10.rs:91-100 | hands out the current node's item and moves one link on; changes no node |
| LinkedStack.StackMutRefIter.constructor | linked_stack_kata/src/day_10.rs:112-113 | the iterator holds the given link and the chain from it |
| LinkedStack.StackMutRefIter.Next | linked_stack_kata/src/day_10.rs:121-130 | hands out the current node itself, the `&mut T` place, and moves one link on; changes no node |
| LinkedStack.Drain | linked_stack_kata/src/day_10.rs:52-58 | draining the consuming iterator yields the stack's items top first, then `None`, and leaves the stack empty |
| LinkedStack.Collect | linked_stack_kata/src/day_10.rs:91-100 | walking the shared-reference iterator yields the items top first and changes nothing |
| LinkedStack.CollectMut | linked_stack_kata/src/day_10.rs:121-130 | reading through each reference the mutable iterator hands out yields the items top first |
| LinkedStack.UpdateAll | linked_stack_kata/src/day_10.rs:121-130 | writing `f` of each item through the mutable iterator rewrites item `i` to `f` of its old value, and keeps the nodes, length and order |
| LinkedStack.PushPop | linked_stack_kata/src/day_10.rs:21-30 | `push` then `pop` returns the pushed item and restores the stack, nodes included |
| LinkedStack.PopEmpty | linked_stack_kata/src/day_10.rs:146-151 | popping a default stack gives `None` |
| LinkedStack.PushPopSingle | linked_stack_kata/src/day_10.rs:153-161 | one pushed item comes back, then `None` |
| LinkedStack.PopAfterPushes | linked_stack_kata/src/day_10.rs:163-175 | three pushed items pop in reverse order, then `None` |
| LinkedStack.FromIterIntoIter | linked_stack_kata/src/day_10.rs:177-187 | a stack built from any sequence and consumed yields the sequence reversed, then `None` |
| LinkedStack.IterateCollected | linked_stack_kata/src/day_10.rs:177-199 | the stack from `1..=3` yields `3, 2, 1` through the shared-reference iterator and then through the consuming one, then `None` |
| LinkedStack.MutIterateCollected | linked_stack_kata/src/day_10.rs:201-211 | the stack from `1..=3` yields `3, 2, 1` through the mutable-reference iterator |
| Lcd.DigitChar | src/lcd_kata/day_6.rs:75-92 | the inverse of `Digit::from`: each digit's character is a decimal digit |
| Lcd.DigitFrom | src/lcd_kata/day_6.rs:75-92 | `Digit::from` of a decimal digit is the digit written with that character |
| Lcd.DigitFromOnto | src/lcd_kata/day_6.rs:75-92 | every digit is reached from its own character |
| Lcd.DigitFromInjective | src/lcd_kata/day_6.rs:75-92 | two digit characters give the same digit if and only if they are equal |
| Lcd.Decode | src/lcd_kata/day_6.rs:22-34 | `Err` if and only if some character is outside `'0'..'9'`; otherwise one digit per character, the `i`-th being `Digit::from` of the `i`-th character; `""` gives an empty line |
| Lcd.FromStr | src/lcd_kata/day_6.rs:25-34 | the loop with its early return gives exactly `Decode(s)` |
| Lcd.Display.constructor | src/lcd_kata/day_6.rs:101-105 | a new display holds no input |
| Lcd.Display.Input | src/lcd_kata/day_6.rs:107-109 | the display now holds exactly the new data, whatever it held before |
| Lcd.Display.Output | src/lcd_kata/day_6.rs:111-116 | an empty line without input, otherwise `Decode` of the held input; it changes no state |
| Lcd.DisplayLifecycle | src/lcd_kata/day_6.rs:99-116 | a fresh display shows an empty line, and after two inputs it shows the decoding of the second |

## Left out

- `Ast::Num` holds the literal as written, not the `f64` that `f64::from_str` makes of it. Floating point is not modelled. Two leaves are therefore equal when their literals are equal, whereas the source compares values (`"1"` and `"1.0"`).
- `IsFloatLiteral` is an automaton for the grammar the Rust standard library documents for `f64::from_str`: an optional sign, then `inf`, `infinity`, `nan` (case-insensitive) or decimal digits with an optional point and exponent. Rust releases before 1.55 accepted a slightly different set, for example without `infinity`. The tests use only plain integers.
- The `Peekable<Chars>` cursor is an index into a `string`. A Rust `char` is a Unicode scalar value, as a Dafny `char` is. The peek/next protocol itself is not modelled.
- A panic at `unwrap` is the outcome `Panic`. The message and unwinding are not modelled. `Calculator.ParseTerm` also returns a cursor with `Panic`, the one `TermAt` gives; the source has no counterpart, since it does not return after a panic. `Calculator.FromStr` returns only the outcome.
- `ParseAstError` carries no data, so it is the constructor `Err` of `Outcome`. `Debug` and `PartialEq` derives are not modelled.
- Behaviour that contradicts a plain reading of the kata's intent follows the code:
  - `from_str` never returns `Ok` with input left over. The only exit is when no operator follows, and a scanned number takes everything up to the next operator, so trailing text ends up inside a literal.
  - A bad operand after an operator panics rather than returning `Err`. `Err` is returned only for an input without operators, or whose only `-` leads it.
- `Drop for Stack` (linked_stack_kata/src/day_10.rs:132-139) is left out. Memory is not reclaimed explicitly in Dafny, and the loop only unlinks nodes.
- `AsRef`/`AsMut` (linked_stack_kata/src/day_10.rs:72-76, 102-106) return the stack itself, so a call on them is a call on the stack.
- Lifetimes, borrowing and `Box` ownership are left out. The borrow checker's guarantee that the stack is not changed while a reference iterator is live is not stated. The methods that walk an iterator keep the stack unchanged themselves.
- LinkedStack.FromIter: takes a `seq<T>` rather than any `IntoIterator`, since the model has no iterator protocol for the input side.
- LinkedStack.StackMutRefIter.Next: hands out the node, through which the caller writes the item, instead of a `&mut T` to the item field.
- LinkedStack.UpdateAll: models writes through the mutable iterator as a function `f` applied to every item. Writes that depend on other state, or that skip items, are not modelled.
- Lcd.DigitFrom: requires a decimal digit, because the source's other arm is `unreachable!` and `from_str` only calls it after checking the character.
- `VecDigit::new` (src/lcd_kata/day_6.rs:15-19) is the datatype constructor `VecDigit`. `DisplayError::new` is the constructor `DisplayError`.
- The `Error` and `fmt::Display` impls of `DisplayError` (src/lcd_kata/day_6.rs:47-59) only produce fixed text and are not modelled.
- `Display` derives `Default`, which is the same as `Display::new` and is not separately modelled. The input is a `&'static str`, modelled as a `string`.
