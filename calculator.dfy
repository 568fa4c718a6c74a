/**
 * The arithmetic-expression parser of calculator_ast_kata/src/day_04.rs.
 *
 * The source parses with a recursive descent over a shared, peekable cursor:
 * `parse_num` scans an operand, `parse_high_op`/`parse_low_op` take one
 * operator, `parse_term` folds `*`/`/` chains and `from_str` folds `+`/`-`
 * chains of terms. Here the cursor is an index into the input string that
 * every method takes and hands back.
 *
 * Each method is proved equal to a specification function that follows the
 * same control flow (`NumberAt`, `TermAt`/`TermLoop`, `ExprAt`/`ExprLoop`,
 * `Parse`); what the parser means is then proved about those functions: a
 * successful parse is exactly a well-formed tree whose text is the input,
 * `Err` comes only from a lone operand that is not a number, and every other
 * input panics at one of the source's `unwrap` calls.
 */
module Calculator {
  import Wrappers

  /**
   * `Ast`. A leaf keeps the literal it was scanned from; the `f64` that Rust
   * converts it to is not modelled (see `IsFloatLiteral`).
   */
  datatype Ast = Num(literal: string) | Op(op: char, left: Ast, right: Ast)

  /**
   * How a parse ends: with a tree, with `ParseAstError`, or with a panic at
   * one of the `unwrap` calls.
   */
  datatype Outcome = Ok(ast: Ast) | Err | Panic

  /** An outcome together with the cursor position after it. */
  datatype Step = Step(outcome: Outcome, pos: nat)

  // ---------------------------------------------------------------------
  // Characters and operands
  // ---------------------------------------------------------------------

  predicate IsLowOp(c: char) {
    c == '+' || c == '-'
  }

  predicate IsHighOp(c: char) {
    c == '*' || c == '/'
  }

  predicate IsOperator(c: char) {
    IsLowOp(c) || IsHighOp(c)
  }

  /**
   * Whether the scan of a number that began at `start` stops at position `k`:
   * always at `+`, `*` and `/`, and at `-` unless nothing has been taken yet.
   */
  predicate EndsNumber(s: string, start: nat, k: nat)
    requires k < |s|
  {
    s[k] == '+' || s[k] == '*' || s[k] == '/' || (s[k] == '-' && k > start)
  }

  predicate IsDigit(c: char) {
    '0' <= c <= '9'
  }

  function LowerAscii(c: char): char {
    if 'A' <= c <= 'Z' then (c as int + 32) as char else c
  }

  /**
   * The states of a recognizer for the grammar Rust documents for
   * `f64::from_str`, read after ASCII lower-casing:
   *   Float  ::= Sign? ( 'inf' | 'infinity' | 'nan' | Number )
   *   Number ::= ( Digit+ | Digit+ '.' Digit* | Digit* '.' Digit+ ) Exp?
   *   Exp    ::= 'e' Sign? Digit+
   * A Sign is `+` or `-`, the characters of the low operators (`IsLowOp`).
   */
  datatype FloatState =
    | Begin                          // nothing read
    | Signed                         // Sign
    | Whole                          // Sign? Digit+
    | Point                          // Sign? '.'
    | Fraction                       // a '.' and at least one digit
    | Exponent                       // ... 'e'
    | ExponentSign                   // ... 'e' Sign
    | ExponentDigits                 // ... 'e' Sign? Digit+
    | Word(word: string, read: nat)  // Sign? and the first `read` letters of `word`
    | Reject

  /** The state after the sign, or after nothing, on lower-cased `d`. */
  function Unsigned(d: char): FloatState {
    if IsDigit(d) then Whole
    else if d == '.' then Point
    else if d == 'i' then Word("infinity", 1)
    else if d == 'n' then Word("nan", 1)
    else Reject
  }

  function NextState(q: FloatState, c: char): FloatState {
    var d := LowerAscii(c);
    match q
    case Begin => if IsLowOp(c) then Signed else Unsigned(d)
    case Signed => Unsigned(d)
    case Whole => if IsDigit(d) then Whole else if d == '.' then Fraction else if d == 'e' then Exponent else Reject
    case Point => if IsDigit(d) then Fraction else Reject
    case Fraction => if IsDigit(d) then Fraction else if d == 'e' then Exponent else Reject
    case Exponent => if IsDigit(d) then ExponentDigits else if IsLowOp(d) then ExponentSign else Reject
    case ExponentSign => if IsDigit(d) then ExponentDigits else Reject
    case ExponentDigits => if IsDigit(d) then ExponentDigits else Reject
    case Word(w, k) => if k < |w| && d == w[k] then Word(w, k + 1) else Reject
    case Reject => Reject
  }

  function Run(q: FloatState, s: string): FloatState
    decreases |s|
  {
    if s == [] then q else Run(NextState(q, s[0]), s[1..])
  }

  predicate Accepting(q: FloatState) {
    q == Whole || q == Fraction || q == ExponentDigits ||
    (q.Word? && (q.read == |q.word| || (q.word == "infinity" && q.read == 3)))
  }

  /** Whether `f64::from_str` accepts `s`. */
  predicate IsFloatLiteral(s: string) {
    Accepting(Run(Begin, s))
  }

  /** The empty string is no number, so every number has at least one character. */
  lemma FloatLiteralNonEmpty(s: string)
    requires IsFloatLiteral(s)
    ensures |s| > 0
  {
  }

  /**
   * A literal the parser can hand back as a leaf: a number that a scan
   * begun at its first character takes whole.
   */
  predicate IsOperand(l: string) {
    IsFloatLiteral(l) && NumberAt(l, 0).pos == |l|
  }

  // ---------------------------------------------------------------------
  // Trees: their text, and the shapes the grammar allows
  // ---------------------------------------------------------------------

  /** The in-order walk of a tree: its operands and operators in order. */
  function Text(t: Ast): string {
    match t
    case Num(l) => l
    case Op(o, a, b) => Text(a) + [o] + Text(b)
  }

  /** A term: operands joined by `*` and `/`, grouped from the left. */
  predicate IsTerm(t: Ast) {
    match t
    case Num(l) => IsOperand(l)
    case Op(o, a, b) => IsHighOp(o) && IsTerm(a) && b.Num? && IsOperand(b.literal)
  }

  /** An expression: terms joined by `+` and `-`, grouped from the left. */
  predicate IsExpr(t: Ast) {
    IsTerm(t) || (t.Op? && IsLowOp(t.op) && IsExpr(t.left) && IsTerm(t.right))
  }

  predicate NoLowOp(t: Ast) {
    match t
    case Num(_) => true
    case Op(o, a, b) => !IsLowOp(o) && NoLowOp(a) && NoLowOp(b)
  }

  /** Precedence: no `+`/`-` node lies below a `*`/`/` node. */
  predicate LowNeverUnderHigh(t: Ast) {
    match t
    case Num(_) => true
    case Op(o, a, b) =>
      (IsHighOp(o) ==> NoLowOp(a) && NoLowOp(b)) && LowNeverUnderHigh(a) && LowNeverUnderHigh(b)
  }

  predicate SameLevel(o1: char, o2: char) {
    (IsLowOp(o1) && IsLowOp(o2)) || (IsHighOp(o1) && IsHighOp(o2))
  }

  /** Left associativity: no node has a right child of its own precedence level. */
  predicate LeftAssociative(t: Ast) {
    match t
    case Num(_) => true
    case Op(o, a, b) =>
      !(b.Op? && SameLevel(o, b.op)) && LeftAssociative(a) && LeftAssociative(b)
  }

  lemma {:induction false} TermHasNoLowOp(t: Ast)
    requires IsTerm(t)
    ensures NoLowOp(t)
  {
    if t.Op? {
      TermHasNoLowOp(t.left);
    }
  }

  /** Every tree of the grammar respects precedence. */
  lemma {:induction false} ExprRespectsPrecedence(t: Ast)
    requires IsExpr(t)
    ensures LowNeverUnderHigh(t)
  {
    if IsTerm(t) {
      TermRespectsPrecedence(t);
    } else {
      ExprRespectsPrecedence(t.left);
      TermRespectsPrecedence(t.right);
    }
  }

  lemma {:induction false} TermRespectsPrecedence(t: Ast)
    requires IsTerm(t)
    ensures LowNeverUnderHigh(t)
  {
    if t.Op? {
      TermHasNoLowOp(t.left);
      TermRespectsPrecedence(t.left);
    }
  }

  /** Every tree of the grammar groups same-level chains from the left. */
  lemma {:induction false} ExprIsLeftAssociative(t: Ast)
    requires IsExpr(t)
    ensures LeftAssociative(t)
  {
    if IsTerm(t) {
      TermIsLeftAssociative(t);
    } else {
      ExprIsLeftAssociative(t.left);
      TermIsLeftAssociative(t.right);
    }
  }

  lemma {:induction false} TermIsLeftAssociative(t: Ast)
    requires IsTerm(t)
    ensures LeftAssociative(t)
  {
    if t.Op? {
      TermIsLeftAssociative(t.left);
    }
  }

  // ---------------------------------------------------------------------
  // Specification of the parse functions
  // ---------------------------------------------------------------------

  /**
   * The loop of `parse_num` for a number that began at `start`, having taken
   * `s[start..k]`: it stops at the first position that ends the number, or
   * at the end, and then converts what it took.
   */
  function NumberLoop(s: string, start: nat, k: nat): (r: Step)
    requires start <= k <= |s|
    ensures k <= r.pos <= |s| && !r.outcome.Panic?
    decreases |s| - k
  {
    if k == |s| || EndsNumber(s, start, k) then
      Step(if IsFloatLiteral(s[start..k]) then Ok(Num(s[start..k])) else Err, k)
    else NumberLoop(s, start, k + 1)
  }

  /** `parse_num` at `pos`. */
  function NumberAt(s: string, pos: nat): (r: Step)
    requires pos <= |s|
    ensures pos <= r.pos <= |s| && !r.outcome.Panic?
  {
    NumberLoop(s, pos, pos)
  }

  /** The loop of `parse_term`, entered with the tree built so far. */
  function TermLoop(s: string, root: Outcome, pos: nat): (r: Step)
    requires pos <= |s| && !root.Panic?
    ensures pos <= r.pos <= |s|
    decreases |s| - pos
  {
    if pos < |s| && IsHighOp(s[pos]) then
      if root.Err? then Step(Panic, pos + 1)
      else
        var n := NumberAt(s, pos + 1);
        if n.outcome.Err? then Step(Panic, n.pos)
        else TermLoop(s, Ok(Op(s[pos], root.ast, n.outcome.ast)), n.pos)
    else Step(root, pos)
  }

  /** `parse_term` at `pos`. */
  function TermAt(s: string, pos: nat): (r: Step)
    requires pos <= |s|
    ensures pos <= r.pos <= |s|
  {
    var n := NumberAt(s, pos);
    TermLoop(s, n.outcome, n.pos)
  }

  /** The loop of `from_str`, entered with the tree built so far. */
  function ExprLoop(s: string, root: Outcome, pos: nat): (r: Step)
    requires pos <= |s| && !root.Panic?
    ensures pos <= r.pos <= |s|
    decreases |s| - pos
  {
    if pos < |s| && IsLowOp(s[pos]) then
      if root.Err? then Step(Panic, pos + 1)
      else
        var m := TermAt(s, pos + 1);
        if !m.outcome.Ok? then Step(Panic, m.pos)
        else ExprLoop(s, Ok(Op(s[pos], root.ast, m.outcome.ast)), m.pos)
    else Step(root, pos)
  }

  /** The body of `from_str` run from `pos`. */
  function ExprAt(s: string, pos: nat): (r: Step)
    requires pos <= |s|
    ensures pos <= r.pos <= |s|
  {
    var m := TermAt(s, pos);
    if m.outcome.Panic? then m else ExprLoop(s, m.outcome, m.pos)
  }

  /** `Ast::from_str`. */
  function Parse(s: string): Outcome {
    ExprAt(s, 0).outcome
  }

  // ---------------------------------------------------------------------
  // The methods, as the source runs them
  // ---------------------------------------------------------------------

  /**
   * `parse_num`: takes the longest run from `pos` that holds no `+`, `*`, `/`
   * and no `-` past its first character, leaves the cursor on the character
   * that stopped it (or at the end), and returns the leaf exactly when the
   * run is a number.
   */
  method ParseNum(s: string, pos: nat) returns (r: Outcome, next: nat)
    requires pos <= |s|
    ensures pos <= next <= |s|
    ensures forall k :: pos <= k < next ==> !EndsNumber(s, pos, k)
    ensures next == |s| || EndsNumber(s, pos, next)
    ensures r == (if IsFloatLiteral(s[pos..next]) then Ok(Num(s[pos..next])) else Err)
    ensures NumberAt(s, pos) == Step(r, next)
  {
    var num := "";
    next := pos;
    while next < |s|
      invariant pos <= next <= |s|
      invariant num == s[pos..next]
      invariant forall k :: pos <= k < next ==> !EndsNumber(s, pos, k)
    {
      var c := s[next];
      if c == '+' || c == '*' || c == '/' {
        break;
      }
      if c == '-' && num != "" {
        break;
      }
      next := next + 1;
      num := num + [c];
    }
    r := if IsFloatLiteral(num) then Ok(Num(num)) else Err;
    NumberAtIs(s, pos, next);
  }

  /** `parse_low_op`: consumes and returns the next character exactly when it is `+` or `-`. */
  method ParseLowOp(s: string, pos: nat) returns (op: Wrappers.Option<char>, next: nat)
    requires pos <= |s|
    ensures pos < |s| && IsLowOp(s[pos]) ==> op == Wrappers.Some(s[pos]) && next == pos + 1
    ensures !(pos < |s| && IsLowOp(s[pos])) ==> op == Wrappers.None && next == pos
  {
    if pos < |s| && (s[pos] == '+' || s[pos] == '-') {
      op, next := Wrappers.Some(s[pos]), pos + 1;
    } else {
      op, next := Wrappers.None, pos;
    }
  }

  /** `parse_high_op`: consumes and returns the next character exactly when it is `*` or `/`. */
  method ParseHighOp(s: string, pos: nat) returns (op: Wrappers.Option<char>, next: nat)
    requires pos <= |s|
    ensures pos < |s| && IsHighOp(s[pos]) ==> op == Wrappers.Some(s[pos]) && next == pos + 1
    ensures !(pos < |s| && IsHighOp(s[pos])) ==> op == Wrappers.None && next == pos
  {
    if pos < |s| && (s[pos] == '*' || s[pos] == '/') {
      op, next := Wrappers.Some(s[pos]), pos + 1;
    } else {
      op, next := Wrappers.None, pos;
    }
  }

  /**
   * `parse_term`: one operand, then for each `*`/`/` one more operand that
   * becomes the right child of a new node whose left child is the tree so
   * far. A failed operand after an operator, or an operator after a failed
   * first operand, panics at `unwrap`.
   */
  method ParseTerm(s: string, pos: nat) returns (r: Outcome, next: nat)
    requires pos <= |s|
    ensures TermAt(s, pos) == Step(r, next)
  {
    var root;
    root, next := ParseNum(s, pos);
    while true
      invariant pos <= next <= |s| && !root.Panic?
      invariant TermLoop(s, root, next) == TermAt(s, pos)
      decreases |s| - next
    {
      var op, afterOp := ParseHighOp(s, next);
      if op.None? {
        break;
      }
      if root.Err? {
        return Panic, afterOp;
      }
      var operand, afterOperand := ParseNum(s, afterOp);
      if operand.Err? {
        return Panic, afterOperand;
      }
      TermLoopStep(s, Op(op.value, root.ast, operand.ast), next, afterOperand);
      root := Ok(Op(op.value, root.ast, operand.ast));
      next := afterOperand;
    }
    r := root;
  }

  /**
   * `Ast::from_str`: one term, then for each `+`/`-` one more term that
   * becomes the right child of a new node whose left child is the tree so
   * far. The result is `Ok` exactly for the text of a well-formed tree, and
   * `Err` exactly when the input is a single operand that is not a number.
   */
  method FromStr(s: string) returns (r: Outcome)
    ensures r == Parse(s)
  {
    var root, next := ParseTerm(s, 0);
    r := Panic;
    if !root.Panic? {
      while true
        invariant next <= |s| && !root.Panic?
        invariant ExprLoop(s, root, next).outcome == Parse(s)
        decreases |s| - next
      {
        var op, afterOp := ParseLowOp(s, next);
        if op.None? {
          r := root;
          break;
        }
        if root.Err? {
          // `root.unwrap()` on an error
          break;
        }
        var term, afterTerm := ParseTerm(s, afterOp);
        if !term.Ok? {
          // `parse_term(...).unwrap()` on an error or a panic inside it
          break;
        }
        ExprLoopStep(s, Op(op.value, root.ast, term.ast), next, afterTerm);
        root := Ok(Op(op.value, root.ast, term.ast));
        next := afterTerm;
      }
    }
  }

  // ---------------------------------------------------------------------
  // What the parse functions mean
  // ---------------------------------------------------------------------

  /**
   * The loop of `parse_num` stops at the first position from `k` on that ends
   * the number, or at the end, and converts exactly what it took.
   */
  lemma {:induction false} NumberLoopStops(s: string, start: nat, k: nat)
    requires start <= k <= |s|
    ensures var r := NumberLoop(s, start, k);
            (forall i :: k <= i < r.pos ==> !EndsNumber(s, start, i)) &&
            (r.pos == |s| || EndsNumber(s, start, r.pos)) &&
            r.outcome == if IsFloatLiteral(s[start..r.pos]) then Ok(Num(s[start..r.pos])) else Err
    decreases |s| - k
  {
    if k < |s| && !EndsNumber(s, start, k) {
      NumberLoopStops(s, start, k + 1);
    }
  }

  /** `parse_num` stops at the first position that ends the number. */
  lemma NumberAtIs(s: string, start: nat, q: nat)
    requires start <= q <= |s|
    requires forall k :: start <= k < q ==> !EndsNumber(s, start, k)
    requires q == |s| || EndsNumber(s, start, q)
    ensures NumberAt(s, start) == Step(if IsFloatLiteral(s[start..q]) then Ok(Num(s[start..q])) else Err, q)
  {
    NumberLoopStops(s, start, start);
  }

  predicate Boundary(s: string, q: nat) {
    q == |s| || (q < |s| && IsOperator(s[q]))
  }

  /** An operand followed by an operator or the end scans to exactly itself. */
  lemma ScanOperand(s: string, pos: nat, l: string)
    requires IsOperand(l) && pos + |l| <= |s| && s[pos..pos + |l|] == l
    requires Boundary(s, pos + |l|)
    ensures NumberAt(s, pos) == Step(Ok(Num(l)), pos + |l|)
  {
    FloatLiteralNonEmpty(l);
    NumberLoopStops(l, 0, 0);
    var q := pos + |l|;
    forall k | pos <= k < q
      ensures !EndsNumber(s, pos, k)
    {
      assert s[k] == l[k - pos];
      assert !EndsNumber(l, 0, k - pos);
    }
    NumberAtIs(s, pos, q);
  }

  /** A successful scan yields an operand, and stops on an operator or at the end. */
  lemma NumberSound(s: string, pos: nat)
    requires pos <= |s|
    ensures NumberAt(s, pos).outcome.Ok? ==>
              NumberAt(s, pos).outcome.ast == Num(s[pos..NumberAt(s, pos).pos]) &&
              IsOperand(s[pos..NumberAt(s, pos).pos])
    ensures Boundary(s, NumberAt(s, pos).pos)
  {
    NumberLoopStops(s, pos, pos);
    var e := NumberAt(s, pos).pos;
    var l := s[pos..e];
    forall k | 0 <= k < |l|
      ensures !EndsNumber(l, 0, k)
    {
      assert !EndsNumber(s, pos, pos + k);
    }
    NumberAtIs(l, 0, |l|);
  }

  /**
   * An operand, stated by its characters alone: a number in which the scan
   * meets nothing that would end it.
   */
  lemma OperandByCharacters(l: string)
    ensures IsOperand(l) <==> IsFloatLiteral(l) && forall k :: 0 <= k < |l| ==> !EndsNumber(l, 0, k)
  {
    NumberLoopStops(l, 0, 0);
    if forall k :: 0 <= k < |l| ==> !EndsNumber(l, 0, k) {
      NumberAtIs(l, 0, |l|);
    }
  }

  /** Cutting a slice that spells `x`, `o`, `y` into its three parts. */
  lemma SplitSlice(s: string, pos: nat, q: nat, x: string, o: char, y: string)
    requires pos <= q <= |s| && s[pos..q] == x + [o] + y
    ensures pos + |x| < q
    ensures s[pos..pos + |x|] == x && s[pos + |x|] == o && s[pos + |x| + 1..q] == y
  {
    assert s[pos..pos + |x|] == s[pos..q][..|x|];
    assert s[pos + |x|] == s[pos..q][|x|];
    assert s[pos + |x| + 1..q] == s[pos..q][|x| + 1..];
  }

  /** Joining the slices on either side of position `pos`. */
  lemma JoinSlice(s: string, p0: nat, pos: nat, q: nat)
    requires p0 <= pos < q <= |s|
    ensures s[p0..q] == s[p0..pos] + [s[pos]] + s[pos + 1..q]
  {
  }

  /** One round of the `parse_term` loop: the operand after a `*`/`/` becomes the right child of `node`. */
  lemma TermLoopStep(s: string, node: Ast, pos: nat, q: nat)
    requires node.Op? && pos < |s| && s[pos] == node.op && IsHighOp(node.op)
    requires NumberAt(s, pos + 1) == Step(Ok(node.right), q)
    ensures TermLoop(s, Ok(node.left), pos) == TermLoop(s, Ok(node), q)
  {
  }

  /** One round of the `from_str` loop: the term after a `+`/`-` becomes the right child of `node`. */
  lemma ExprLoopStep(s: string, node: Ast, pos: nat, q: nat)
    requires node.Op? && pos < |s| && s[pos] == node.op && IsLowOp(node.op)
    requires TermAt(s, pos + 1) == Step(Ok(node.right), q)
    ensures ExprLoop(s, Ok(node.left), pos) == ExprLoop(s, Ok(node), q)
  {
  }

  /** What a term that stops at `q` tells the loop after it. */
  predicate TermEndsAt(s: string, q: nat) {
    q == |s| || (q < |s| && IsLowOp(s[q]))
  }

  lemma {:induction false} TermLoopSound(s: string, p0: nat, root: Ast, pos: nat)
    requires p0 <= pos <= |s| && IsTerm(root) && Text(root) == s[p0..pos] && Boundary(s, pos)
    ensures var m := TermLoop(s, Ok(root), pos);
            m.outcome.Ok? ==> IsTerm(m.outcome.ast) && Text(m.outcome.ast) == s[p0..m.pos] && TermEndsAt(s, m.pos)
    decreases |s| - pos
  {
    if pos < |s| && IsHighOp(s[pos]) {
      var n := NumberAt(s, pos + 1);
      NumberSound(s, pos + 1);
      if n.outcome.Ok? {
        var grown := Op(s[pos], root, n.outcome.ast);
        JoinSlice(s, p0, pos, n.pos);
        assert Text(grown) == s[p0..n.pos];
        TermLoopStep(s, grown, pos, n.pos);
        TermLoopSound(s, p0, grown, n.pos);
      }
    }
  }

  /** A successful term is a well-formed term spelling out what it consumed, and stops before `+`, `-` or the end. */
  lemma TermSound(s: string, pos: nat)
    requires pos <= |s|
    ensures var m := TermAt(s, pos);
            m.outcome.Ok? ==> IsTerm(m.outcome.ast) && Text(m.outcome.ast) == s[pos..m.pos] && TermEndsAt(s, m.pos)
  {
    var n := NumberAt(s, pos);
    NumberSound(s, pos);
    if n.outcome.Ok? {
      TermLoopSound(s, pos, n.outcome.ast, n.pos);
    }
  }

  lemma {:induction false} ExprLoopSound(s: string, root: Ast, pos: nat)
    requires pos <= |s| && IsExpr(root) && Text(root) == s[0..pos] && TermEndsAt(s, pos)
    ensures var m := ExprLoop(s, Ok(root), pos);
            m.outcome.Ok? ==> IsExpr(m.outcome.ast) && Text(m.outcome.ast) == s
    decreases |s| - pos
  {
    if pos < |s| {
      var m := TermAt(s, pos + 1);
      TermSound(s, pos + 1);
      if m.outcome.Ok? {
        var grown := Op(s[pos], root, m.outcome.ast);
        JoinSlice(s, 0, pos, m.pos);
        assert Text(grown) == s[0..m.pos];
        ExprLoopStep(s, grown, pos, m.pos);
        ExprLoopSound(s, grown, m.pos);
      }
    } else {
      assert s[0..pos] == s;
    }
  }

  /** Soundness: a successful parse is a well-formed expression whose in-order walk is the whole input. */
  lemma ParseSound(s: string)
    ensures Parse(s).Ok? ==> IsExpr(Parse(s).ast) && Text(Parse(s).ast) == s
  {
    var m := TermAt(s, 0);
    TermSound(s, 0);
    if m.outcome.Ok? {
      ExprLoopSound(s, m.outcome.ast, m.pos);
    }
  }

  /** `s` holds the text of `t` at `pos`. */
  predicate SpelledAt(s: string, pos: nat, t: Ast) {
    pos + |Text(t)| <= |s| && s[pos..pos + |Text(t)|] == Text(t)
  }

  /** `s` holds the term `t` at `pos`, followed by an operator or the end. */
  predicate TermWritten(s: string, pos: nat, t: Ast) {
    IsTerm(t) && SpelledAt(s, pos, t) && Boundary(s, pos + |Text(t)|)
  }

  /** `s` holds the expression `t` at `pos`, followed by `+`, `-` or the end. */
  predicate ExprWritten(s: string, pos: nat, t: Ast) {
    IsExpr(t) && SpelledAt(s, pos, t) && TermEndsAt(s, pos + |Text(t)|)
  }

  /** The text of a node holds the text of its left child, followed by its operator. */
  lemma SpelledLeft(s: string, pos: nat, t: Ast)
    requires t.Op? && SpelledAt(s, pos, t)
    ensures SpelledAt(s, pos, t.left)
    ensures pos + |Text(t.left)| < |s| && s[pos + |Text(t.left)|] == t.op
    ensures SpelledAt(s, pos + |Text(t.left)| + 1, t.right)
    ensures pos + |Text(t.left)| + 1 + |Text(t.right)| == pos + |Text(t)|
  {
    SplitSlice(s, pos, pos + |Text(t)|, Text(t.left), t.op, Text(t.right));
  }

  lemma TermCompleteLeaf(s: string, pos: nat, t: Ast)
    requires TermWritten(s, pos, t) && t.Num?
    ensures TermAt(s, pos) == TermLoop(s, Ok(t), pos + |Text(t)|)
  {
    ScanOperand(s, pos, t.literal);
  }

  /** The left child of a term node is a term, spelled out before an operator. */
  lemma TermLeft(s: string, pos: nat, t: Ast)
    requires TermWritten(s, pos, t) && t.Op?
    ensures TermWritten(s, pos, t.left)
  {
    SpelledLeft(s, pos, t);
  }

  /** The left child of an expression node that is no term is an expression, spelled out before `+` or `-`. */
  lemma ExprLeft(s: string, pos: nat, t: Ast)
    requires ExprWritten(s, pos, t) && !IsTerm(t)
    ensures ExprWritten(s, pos, t.left)
  {
    SpelledLeft(s, pos, t);
  }

  /** The right child of a term node is the operand scanned after the node's operator. */
  lemma TermRight(s: string, pos: nat, t: Ast)
    requires TermWritten(s, pos, t) && t.Op?
    ensures pos + |Text(t.left)| < |s| && s[pos + |Text(t.left)|] == t.op && IsHighOp(t.op)
    ensures NumberAt(s, pos + |Text(t.left)| + 1) == Step(Ok(t.right), pos + |Text(t)|)
  {
    SpelledLeft(s, pos, t);
    ScanOperand(s, pos + |Text(t.left)| + 1, t.right.literal);
  }

  /** One round of the `parse_term` loop, for the node `t` spelled out at `pos`. */
  lemma TermNodeStep(s: string, pos: nat, t: Ast)
    requires t.Op? && pos + |Text(t.left)| < |s| && s[pos + |Text(t.left)|] == t.op && IsHighOp(t.op)
    requires NumberAt(s, pos + |Text(t.left)| + 1) == Step(Ok(t.right), pos + |Text(t)|)
    ensures TermLoop(s, Ok(t.left), pos + |Text(t.left)|) == TermLoop(s, Ok(t), pos + |Text(t)|)
  {
  }

  /** After the left child of a term node, the `parse_term` loop goes on to build the node. */
  lemma TermLoopExtends(s: string, pos: nat, t: Ast)
    requires TermWritten(s, pos, t) && t.Op?
    ensures TermLoop(s, Ok(t.left), pos + |Text(t.left)|) == TermLoop(s, Ok(t), pos + |Text(t)|)
  {
    TermRight(s, pos, t);
    TermNodeStep(s, pos, t);
  }

  /** The step of `TermComplete`: the operand after the left child's text extends the loop's tree. */
  lemma TermCompleteNode(s: string, pos: nat, t: Ast)
    requires TermWritten(s, pos, t) && t.Op?
    requires TermAt(s, pos) == TermLoop(s, Ok(t.left), pos + |Text(t.left)|)
    ensures TermAt(s, pos) == TermLoop(s, Ok(t), pos + |Text(t)|)
  {
    TermLoopExtends(s, pos, t);
  }

  /**
   * A well-formed term written out at `pos` is parsed back by `parse_term`,
   * which then stands, with that very tree, where the term's text ends.
   */
  lemma {:induction false} TermComplete(s: string, pos: nat, t: Ast)
    requires TermWritten(s, pos, t)
    ensures TermAt(s, pos) == TermLoop(s, Ok(t), pos + |Text(t)|)
    decreases t
  {
    if t.Num? {
      TermCompleteLeaf(s, pos, t);
    } else {
      TermLeft(s, pos, t);
      TermComplete(s, pos, t.left);
      TermCompleteNode(s, pos, t);
    }
  }

  /** A term followed by `+`, `-` or the end is the whole of `parse_term`'s answer. */
  lemma TermCompleteStops(s: string, pos: nat, t: Ast)
    requires IsTerm(t) && SpelledAt(s, pos, t) && TermEndsAt(s, pos + |Text(t)|)
    ensures TermAt(s, pos) == Step(Ok(t), pos + |Text(t)|)
  {
    TermComplete(s, pos, t);
  }

  /** The right child of an expression node is the term parsed after the node's operator. */
  lemma ExprRight(s: string, pos: nat, t: Ast)
    requires ExprWritten(s, pos, t) && !IsTerm(t)
    ensures pos + |Text(t.left)| < |s| && s[pos + |Text(t.left)|] == t.op && IsLowOp(t.op)
    ensures TermAt(s, pos + |Text(t.left)| + 1) == Step(Ok(t.right), pos + |Text(t)|)
  {
    SpelledLeft(s, pos, t);
    TermCompleteStops(s, pos + |Text(t.left)| + 1, t.right);
  }

  /** One round of the `from_str` loop, for the node `t` spelled out at `pos`. */
  lemma ExprNodeStep(s: string, pos: nat, t: Ast)
    requires t.Op? && pos + |Text(t.left)| < |s| && s[pos + |Text(t.left)|] == t.op && IsLowOp(t.op)
    requires TermAt(s, pos + |Text(t.left)| + 1) == Step(Ok(t.right), pos + |Text(t)|)
    ensures ExprLoop(s, Ok(t.left), pos + |Text(t.left)|) == ExprLoop(s, Ok(t), pos + |Text(t)|)
  {
  }

  /** After the left child of an expression node, the `from_str` loop goes on to build the node. */
  lemma ExprLoopExtends(s: string, pos: nat, t: Ast)
    requires ExprWritten(s, pos, t) && !IsTerm(t)
    ensures ExprLoop(s, Ok(t.left), pos + |Text(t.left)|) == ExprLoop(s, Ok(t), pos + |Text(t)|)
  {
    ExprRight(s, pos, t);
    ExprNodeStep(s, pos, t);
  }

  /** An expression that is a single term is the term `parse_term` finds. */
  lemma ExprCompleteTerm(s: string, pos: nat, t: Ast)
    requires ExprWritten(s, pos, t)
    ensures IsTerm(t) ==> ExprAt(s, pos) == ExprLoop(s, Ok(t), pos + |Text(t)|)
  {
    if IsTerm(t) {
      TermCompleteStops(s, pos, t);
    }
  }

  /** A well-formed expression written out at `pos` is parsed back by the loop of `from_str`. */
  lemma {:induction false} ExprComplete(s: string, pos: nat, t: Ast)
    requires ExprWritten(s, pos, t)
    ensures ExprAt(s, pos) == ExprLoop(s, Ok(t), pos + |Text(t)|)
    decreases t
  {
    ExprCompleteTerm(s, pos, t);
    if !IsTerm(t) {
      ExprLeft(s, pos, t);
      ExprComplete(s, pos, t.left);
      ExprLoopExtends(s, pos, t);
    }
  }

  /** Completeness: printing a well-formed expression and parsing it back gives the same tree. */
  lemma ParseComplete(t: Ast)
    requires IsExpr(t)
    ensures Parse(Text(t)) == Ok(t)
  {
    var s := Text(t);
    assert s[0..|s|] == s;
    assert ExprWritten(s, 0, t);
    ExprComplete(s, 0, t);
    assert ExprLoop(s, Ok(t), |s|) == Step(Ok(t), |s|);
  }

  /** `Parse(s)` is `Ok(t)` exactly when `t` is a well-formed expression whose in-order walk is `s`. */
  lemma ParseExactly(s: string)
    ensures forall t :: Parse(s) == Ok(t) <==> IsExpr(t) && Text(t) == s
  {
    ParseSound(s);
    forall t | IsExpr(t) && Text(t) == s
      ensures Parse(s) == Ok(t)
    {
      ParseComplete(t);
    }
  }

  /** Once the tree so far is a tree, the `parse_term` loop never ends in `Err`. */
  lemma {:induction false} TermLoopNotErr(s: string, root: Ast, pos: nat)
    requires pos <= |s|
    ensures TermLoop(s, Ok(root), pos).outcome != Err
    decreases |s| - pos
  {
    if pos < |s| && IsHighOp(s[pos]) {
      var n := NumberAt(s, pos + 1);
      if n.outcome.Ok? {
        TermLoopNotErr(s, Op(s[pos], root, n.outcome.ast), n.pos);
      }
    }
  }

  /** Once the tree so far is a tree, the `from_str` loop never ends in `Err`. */
  lemma {:induction false} ExprLoopNotErr(s: string, root: Ast, pos: nat)
    requires pos <= |s|
    ensures ExprLoop(s, Ok(root), pos).outcome != Err
    decreases |s| - pos
  {
    if pos < |s| && IsLowOp(s[pos]) {
      var m := TermAt(s, pos + 1);
      if m.outcome.Ok? {
        ExprLoopNotErr(s, Op(s[pos], root, m.outcome.ast), m.pos);
      }
    }
  }

  /**
   * An input with no operator the scan would stop at is a single operand:
   * the leaf when it is a number, `Err` otherwise. Hence `"1"` and `"-5"`
   * parse to one leaf, the sign belonging to the number.
   */
  lemma ParseSingleOperand(s: string)
    requires NumberAt(s, 0).pos == |s|
    ensures Parse(s) == if IsFloatLiteral(s) then Ok(Num(s)) else Err
  {
    NumberLoopStops(s, 0, 0);
    assert s[0..|s|] == s;
  }

  /**
   * When the first operand fails and an operator follows it, the parse
   * panics: at `unwrap` in `parse_term` for `*`/`/`, in `from_str` for `+`/`-`.
   */
  lemma FirstOperandFailurePanics(s: string)
    requires NumberAt(s, 0).pos < |s| && NumberAt(s, 0).outcome == Err
    ensures Parse(s) == Panic
  {
    NumberSound(s, 0);
  }

  /** `Parse(s)` is `Err` exactly when `s` is a single operand that is not a number. */
  lemma ParseErrExactly(s: string)
    ensures Parse(s) == Err <==> NumberAt(s, 0).pos == |s| && !IsFloatLiteral(s)
  {
    var n := NumberAt(s, 0);
    NumberSound(s, 0);
    if n.pos == |s| {
      ParseSingleOperand(s);
    } else if n.outcome.Ok? {
      TermLoopNotErr(s, n.outcome.ast, n.pos);
      var m := TermAt(s, 0);
      if m.outcome.Ok? {
        ExprLoopNotErr(s, m.outcome.ast, m.pos);
      }
    }
  }

  /**
   * The three outcomes: `Ok` exactly for the text of a well-formed
   * expression, `Err` exactly for a single operand that is not a number,
   * and a panic exactly for an input that holds an operator but is not the
   * text of any well-formed expression.
   */
  lemma ParseOutcomes(s: string)
    ensures Parse(s).Ok? <==> exists t :: IsExpr(t) && Text(t) == s
    ensures Parse(s) == Err <==> NumberAt(s, 0).pos == |s| && !IsFloatLiteral(s)
    ensures Parse(s) == Panic <==> NumberAt(s, 0).pos < |s| && !(exists t :: IsExpr(t) && Text(t) == s)
  {
    ParseErrExactly(s);
    if Parse(s).Ok? {
      ParseSound(s);
      assert IsExpr(Parse(s).ast) && Text(Parse(s).ast) == s;
    } else {
      forall t | IsExpr(t) && Text(t) == s
        ensures false
      {
        ParseComplete(t);
      }
      if NumberAt(s, 0).pos == |s| {
        ParseSingleOperand(s);
      }
    }
  }

  /**
   * Every tree `from_str` returns respects precedence and groups each level
   * from the left.
   */
  lemma ParseShape(s: string)
    ensures Parse(s).Ok? ==> LowNeverUnderHigh(Parse(s).ast) && LeftAssociative(Parse(s).ast)
  {
    ParseSound(s);
    if Parse(s).Ok? {
      ExprRespectsPrecedence(Parse(s).ast);
      ExprIsLeftAssociative(Parse(s).ast);
    }
  }

  // ---------------------------------------------------------------------
  // Integers
  // ---------------------------------------------------------------------

  /** A decimal integer: digits, with an optional leading `-`. */
  predicate IsInteger(l: string) {
    |l| > 0 && (IsDigit(l[0]) || (l[0] == '-' && |l| > 1)) &&
    forall i :: 1 <= i < |l| ==> IsDigit(l[i])
  }

  /** Once in the whole part of a number, further digits keep it there. */
  lemma {:induction false} DigitsStayWhole(s: string)
    requires forall i :: 0 <= i < |s| ==> IsDigit(s[i])
    ensures Run(Whole, s) == Whole
    decreases |s|
  {
    if s != [] {
      DigitsStayWhole(s[1..]);
    }
  }

  /** Every decimal integer is an operand: a number the scan takes whole. */
  lemma IntegerIsOperand(l: string)
    requires IsInteger(l)
    ensures IsOperand(l)
  {
    if l[0] == '-' {
      DigitsStayWhole(l[2..]);
      assert Run(Begin, l) == Run(Whole, l[2..]) by {
        assert l[1..][1..] == l[2..];
      }
    } else {
      DigitsStayWhole(l[1..]);
    }
    NumberAtIs(l, 0, |l|);
  }
}
