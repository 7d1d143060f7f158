/**
 * The execution engine: a fetch/execute loop over an instruction vector, a
 * flat memory of 16-bit cells with two reserved cells, a label table built
 * before the loop, and a call stack pushed by JMP and popped by RTN.
 *
 * Console I/O is abstracted: console input is a sequence of units consumed one
 * per CIN (a character code for the library engine, a byte for the older one in
 * `main.rs`), and everything the program prints is appended to an output trace.
 * The two engines differ only in CIN, so both are one machine with a `Dialect`.
 */
module Interpreter {
  import opened Base
  import opened Instructions

  /** The address register: its value names the target cell of most instructions. */
  const ADDRESS_CELL: nat := 65534

  /** The comparison flag, written by CEQ and read by BNE and BEQ. */
  const COMPARE_CELL: nat := 65533

  /** The fewest cells a memory has: both reserved cells exist. */
  const MIN_CELLS: nat := 65535

  /** `interpreter.rs` (CIN reads a character and echoes it) or `main.rs` (CIN reads a byte). */
  datatype Dialect = Library | Legacy

  /** One item of console output: OUT prints a number, CUT and CIN a character, DMP the memory. */
  datatype Token = Number(n: u16) | Character(code: nat) | MemoryDump(cells: seq<u16>)

  /** The ways a run aborts: the engine's `Err` results and its panics. */
  datatype RuntimeError =
    | UndeclaredLabel(name: u16)
    | EmptyCallStack
    | InvalidCharacter(code: u16)
    | DivisionByZero
    | OutOfBounds
    | InputFailure

  datatype State = State(memory: seq<u16>, ip: nat, stack: seq<nat>, input: seq<nat>, output: seq<Token>)

  datatype Status = Finished | Failed(error: RuntimeError) | OutOfFuel

  /** How a bounded run ended, and the state it ended in (the state before the failing step on failure). */
  datatype Trace = Trace(status: Status, final: State)

  /** A fresh machine: every cell zero, at the first instruction, with no caller. */
  function Initial(cells: nat, input: seq<nat>): State {
    State(seq(cells, _ => 0), 0, [], input, [])
  }

  // ---------------------------------------------------------------------------
  // The label pre-pass

  /** The index of every `Label(Literal(v))`, the last one winning, as `collect` into a map does. */
  function Labels(p: seq<Instruction>): (labels: map<u16, nat>)
    ensures forall v | v in labels :: labels[v] < |p| && p[labels[v]] == Label(Literal(v))
    decreases |p|
  {
    if p == [] then map[]
    else
      match p[|p| - 1]
      case Label(Literal(v)) => Labels(p[..|p| - 1])[v := |p| - 1]
      case _ => Labels(p[..|p| - 1])
  }

  /** A literal is a key of the table exactly when some LAB declares it, and it maps to the
      index of its last declaration. */
  lemma LabelsSpec(p: seq<Instruction>)
    ensures forall v: u16 :: v in Labels(p) <==> exists i :: 0 <= i < |p| && p[i] == Label(Literal(v))
    ensures forall v :: v in Labels(p) ==>
      Labels(p)[v] < |p| && p[Labels(p)[v]] == Label(Literal(v))
      && forall j :: Labels(p)[v] < j < |p| ==> p[j] != Label(Literal(v))
  {
    LabelsKeys(p);
    LabelsLast(p);
  }

  lemma {:induction false} LabelsKeys(p: seq<Instruction>)
    ensures forall v: u16 :: v in Labels(p) <==> exists i :: 0 <= i < |p| && p[i] == Label(Literal(v))
    decreases |p|
  {
    if p != [] {
      var init := p[..|p| - 1];
      LabelsKeys(init);
      assert forall i :: 0 <= i < |init| ==> init[i] == p[i];
    }
  }

  lemma {:induction false} LabelsLast(p: seq<Instruction>)
    ensures forall v :: v in Labels(p) ==> forall j :: Labels(p)[v] < j < |p| ==> p[j] != Label(Literal(v))
    decreases |p|
  {
    if p != [] {
      var init := p[..|p| - 1];
      LabelsLast(init);
      forall v | v in Labels(p)
        ensures forall j :: Labels(p)[v] < j < |p| ==> p[j] != Label(Literal(v))
      {
        if p[|p| - 1] != Label(Literal(v)) {
          assert v in Labels(init) && Labels(p)[v] == Labels(init)[v];
          assert forall j :: 0 <= j < |init| ==> init[j] == p[j];
        }
      }
    }
  }

  // ---------------------------------------------------------------------------
  // One step

  /** `get_literal_value`, with a missing cell as an out-of-bounds error. */
  function Resolve(v: Value, memory: seq<u16>): (r: Result<u16, RuntimeError>)
    ensures v.Literal? ==> r == Ok(v.word)
    ensures v.Address? ==> r == if v.word < |memory| then Ok(memory[v.word]) else Err(OutOfBounds)
    ensures r.Err? <==> GetLiteralValue(v, memory).None?
    ensures r.Ok? ==> r.value == GetLiteralValue(v, memory).value
  {
    match GetLiteralValue(v, memory)
    case None => Err(OutOfBounds)
    case Some(x) => Ok(x)
  }

  /** `Wrapping<u16>`: the value modulo 65536. */
  function Wrap(x: int): u16 {
    x % 0x1_0000
  }

  /** The new target value of ADD, SUB, MUL and DIV; None for a division by zero. */
  function Combine(i: Instruction, a: u16, b: u16): (r: Option<u16>)
    requires i.Add? || i.Subtract? || i.Multiply? || i.Divide?
    ensures r.None? <==> i.Divide? && b == 0
  {
    if i.Add? then Some(Wrap(a + b))
    else if i.Subtract? then Some(Wrap(a - b))
    else if i.Multiply? then Some(Wrap(a * b))
    else if b == 0 then None
    else Some(a / b)
  }

  /** ADD, SUB, MUL and DIV: the target cell combined with the resolved operand. */
  function Arith(i: Instruction, s: State): (r: Result<State, RuntimeError>)
    requires i.Add? || i.Subtract? || i.Multiply? || i.Divide?
    requires |s.memory| >= MIN_CELLS
    ensures r.Ok? ==> r.value == s.(memory := r.value.memory, ip := s.ip + 1) && |r.value.memory| == |s.memory|
    ensures r.Err? ==> r.error == OutOfBounds || r.error == DivisionByZero
  {
    var t := s.memory[ADDRESS_CELL];
    if t >= |s.memory| then Err(OutOfBounds)
    else
      var x :- Resolve(i.operand, s.memory);
      match Combine(i, s.memory[t], x)
      case None => Err(DivisionByZero)
      case Some(y) => Ok(s.(memory := s.memory[t := y], ip := s.ip + 1))
  }

  /** A transfer to the LAB instruction that the resolved operand names. */
  function GoTo(labels: map<u16, nat>, s: State, v: Value): (r: Result<State, RuntimeError>)
    ensures r.Ok? ==> r.value == s.(ip := r.value.ip) && r.value.ip in labels.Values
    ensures r.Err? ==> r.error == OutOfBounds || r.error.UndeclaredLabel?
  {
    var name :- Resolve(v, s.memory);
    if name in labels then Ok(s.(ip := labels[name])) else Err(UndeclaredLabel(name))
  }

  /** One iteration of the dispatch loop of `interpret`; `labels` is the table built before the loop. */
  function Next(d: Dialect, p: seq<Instruction>, labels: map<u16, nat>, s: State): (r: Result<State, RuntimeError>)
    requires s.ip < |p| && |s.memory| >= MIN_CELLS
    ensures r.Ok? ==> |r.value.memory| == |s.memory|
    ensures r.Ok? ==> s.output <= r.value.output
  {
    var mem := s.memory;
    var t := mem[ADDRESS_CELL];
    var next := s.ip + 1;
    match p[s.ip]
    case Output =>
      if t >= |mem| then Err(OutOfBounds)
      else Ok(s.(ip := next, output := s.output + [Number(mem[t])]))
    case CharacterOutput =>
      if t >= |mem| then Err(OutOfBounds)
      else if 0xD800 <= mem[t] <= 0xDFFF then Err(InvalidCharacter(mem[t]))
      else Ok(s.(ip := next, output := s.output + [Character(mem[t])]))
    case CharacterInput =>
      if d == Library && s.input == [] then Err(InputFailure)
      else if t >= |mem| then Err(OutOfBounds)
      else
        var unit := if s.input == [] then 0 else s.input[0];
        var echo := if d == Library then [Character(unit)] else [];
        Ok(s.(memory := mem[t := Wrap(unit)], ip := next,
              input := if s.input == [] then [] else s.input[1..], output := s.output + echo))
    case Dump =>
      Ok(s.(ip := next, output := s.output + [MemoryDump(mem)]))
    case Return =>
      if s.stack == [] then Err(EmptyCallStack)
      else Ok(s.(ip := s.stack[|s.stack| - 1] + 1, stack := s.stack[..|s.stack| - 1]))
    case SetAddress(v) =>
      var x :- Resolve(v, mem);
      Ok(s.(memory := mem[ADDRESS_CELL := x], ip := next))
    case SetValue(v) =>
      var x :- Resolve(v, mem);
      if t >= |mem| then Err(OutOfBounds) else Ok(s.(memory := mem[t := x], ip := next))
    case Add(_) => Arith(p[s.ip], s)
    case Subtract(_) => Arith(p[s.ip], s)
    case Multiply(_) => Arith(p[s.ip], s)
    case Divide(_) => Arith(p[s.ip], s)
    case Compare(v) =>
      var x :- Resolve(v, mem);
      if t >= |mem| then Err(OutOfBounds)
      else Ok(s.(memory := mem[COMPARE_CELL := if mem[t] == x then 1 else 0], ip := next))
    case BranchIfNotEqual(v) =>
      if mem[COMPARE_CELL] == 0 then GoTo(labels, s, v) else Ok(s.(ip := next))
    case BranchIfEqual(v) =>
      if mem[COMPARE_CELL] == 1 then GoTo(labels, s, v) else Ok(s.(ip := next))
    case Jump(v) =>
      var target :- GoTo(labels, s, v);
      Ok(target.(stack := s.stack + [s.ip]))
    case _ =>
      Ok(s.(ip := next))
  }

  /** At most `fuel` steps of the loop: it ends when ip leaves the program or a step fails. */
  function Execute(d: Dialect, p: seq<Instruction>, labels: map<u16, nat>, s: State, fuel: nat): (t: Trace)
    requires |s.memory| >= MIN_CELLS
    ensures |t.final.memory| == |s.memory|
    ensures s.output <= t.final.output
    decreases fuel
  {
    if s.ip >= |p| then Trace(Finished, s)
    else if fuel == 0 then Trace(OutOfFuel, s)
    else
      match Next(d, p, labels, s)
      case Err(e) => Trace(Failed(e), s)
      case Ok(s') => Execute(d, p, labels, s', fuel - 1)
  }

  // ---------------------------------------------------------------------------
  // Laws of one step

  /** The target cell of most instructions, `memory[memory[65534]]`. */
  function Target(s: State): nat
    requires |s.memory| >= MIN_CELLS
  {
    s.memory[ADDRESS_CELL]
  }

  /** Every cell but `c` is the same in both memories. */
  ghost predicate OnlyChanged(m: seq<u16>, m': seq<u16>, c: nat) {
    |m'| == |m| && forall k :: 0 <= k < |m| && k != c ==> m'[k] == m[k]
  }

  /** SEA fails only on a missing operand cell; it writes the address register and nothing else. */
  lemma SetAddressFrame(d: Dialect, p: seq<Instruction>, labels: map<u16, nat>, s: State)
    requires s.ip < |p| && |s.memory| >= MIN_CELLS && p[s.ip].SetAddress?
    ensures Next(d, p, labels, s).Ok? <==> GetLiteralValue(p[s.ip].operand, s.memory).Some?
    ensures Next(d, p, labels, s).Ok? ==>
      var s' := Next(d, p, labels, s).value;
      && s'.memory[ADDRESS_CELL] == GetLiteralValue(p[s.ip].operand, s.memory).value
      && OnlyChanged(s.memory, s'.memory, ADDRESS_CELL)
      && s' == s.(memory := s'.memory, ip := s.ip + 1)
  {
  }

  /** SET, ADD, SUB, MUL and DIV write the target cell and nothing else. */
  lemma TargetWriteFrame(d: Dialect, p: seq<Instruction>, labels: map<u16, nat>, s: State)
    requires s.ip < |p| && |s.memory| >= MIN_CELLS
    requires p[s.ip].SetValue? || p[s.ip].Add? || p[s.ip].Subtract? || p[s.ip].Multiply? || p[s.ip].Divide?
    ensures Next(d, p, labels, s).Ok? ==>
      var s' := Next(d, p, labels, s).value;
      && OnlyChanged(s.memory, s'.memory, Target(s))
      && s' == s.(memory := s'.memory, ip := s.ip + 1)
    ensures Next(d, p, labels, s).Err? ==>
      Next(d, p, labels, s).error == (if p[s.ip].Divide? && Target(s) < |s.memory| && GetLiteralValue(p[s.ip].operand, s.memory).Some?
                               then DivisionByZero else OutOfBounds)
  {
  }

  /** With both cells present, SET stores the operand and ADD, SUB and MUL compute modulo
      65536; DIV truncates, and fails exactly on a zero divisor. */
  lemma ArithmeticWraps(d: Dialect, p: seq<Instruction>, labels: map<u16, nat>, s: State)
    requires s.ip < |p| && |s.memory| >= MIN_CELLS
    requires p[s.ip].SetValue? || p[s.ip].Add? || p[s.ip].Subtract? || p[s.ip].Multiply? || p[s.ip].Divide?
    requires Target(s) < |s.memory| && GetLiteralValue(p[s.ip].operand, s.memory).Some?
    ensures
      var a, b := s.memory[Target(s)] as int, GetLiteralValue(p[s.ip].operand, s.memory).value as int;
      var r := Next(d, p, labels, s);
      && (p[s.ip].SetValue? ==> r.Ok? && r.value.memory[Target(s)] == b)
      && (p[s.ip].Add? ==> r.Ok? && r.value.memory[Target(s)] == (a + b) % 65536)
      && (p[s.ip].Subtract? ==> r.Ok? && r.value.memory[Target(s)] == (a + 65536 - b) % 65536)
      && (p[s.ip].Multiply? ==> r.Ok? && r.value.memory[Target(s)] == (a * b) % 65536)
      && (p[s.ip].Divide? ==> (r.Ok? <==> b != 0))
      && (p[s.ip].Divide? && b != 0 ==> r.value.memory[Target(s)] == a / b)
  {
    var a, b := s.memory[Target(s)] as int, GetLiteralValue(p[s.ip].operand, s.memory).value as int;
    var r := Next(d, p, labels, s);
    if p[s.ip].SetValue? {
      assert r == Ok(s.(memory := s.memory[Target(s) := b], ip := s.ip + 1));
    } else {
      assert r == Arith(p[s.ip], s);
      if p[s.ip].Subtract? {
        assert (a - b) % 65536 == (a + 65536 - b) % 65536;
      } else if p[s.ip].Divide? && b != 0 {
        assert r.value.memory[Target(s)] == a / b;
      }
    }
  }

  /** The largest value plus one wraps to zero. */
  lemma AddWrapsToZero(d: Dialect, p: seq<Instruction>, labels: map<u16, nat>, s: State)
    requires s.ip < |p| && |s.memory| >= MIN_CELLS && Target(s) < |s.memory|
    requires p[s.ip] == Add(Literal(0x0001)) && s.memory[Target(s)] == 0xFFFF
    ensures Next(d, p, labels, s).Ok? && Next(d, p, labels, s).value.memory[Target(s)] == 0
  {
    ArithmeticWraps(d, p, labels, s);
  }

  /** CEQ sets the flag cell to 1 when the target cell equals the operand and to 0 otherwise,
      and changes nothing else. */
  lemma CompareSetsFlag(d: Dialect, p: seq<Instruction>, labels: map<u16, nat>, s: State)
    requires s.ip < |p| && |s.memory| >= MIN_CELLS && p[s.ip].Compare?
    ensures Next(d, p, labels, s).Ok? <==> Target(s) < |s.memory| && GetLiteralValue(p[s.ip].operand, s.memory).Some?
    ensures Next(d, p, labels, s).Ok? ==>
      var s' := Next(d, p, labels, s).value;
      && (s'.memory[COMPARE_CELL] == 1 <==> s.memory[Target(s)] == GetLiteralValue(p[s.ip].operand, s.memory).value)
      && (s'.memory[COMPARE_CELL] == 0 <==> s.memory[Target(s)] != GetLiteralValue(p[s.ip].operand, s.memory).value)
      && OnlyChanged(s.memory, s'.memory, COMPARE_CELL)
      && s' == s.(memory := s'.memory, ip := s.ip + 1)
  {
  }

  /** A transfer lands on the last LAB of the resolved name and changes nothing but ip;
      it fails exactly when the operand cell is missing or no LAB declares the name. */
  lemma GoToLabel(p: seq<Instruction>, s: State, v: Value)
    ensures GetLiteralValue(v, s.memory).None? ==> GoTo(Labels(p), s, v) == Err(OutOfBounds)
    ensures GetLiteralValue(v, s.memory).Some? ==>
      var name := GetLiteralValue(v, s.memory).value;
      && (GoTo(Labels(p), s, v) == Err(UndeclaredLabel(name)) <==> forall i :: 0 <= i < |p| ==> p[i] != Label(Literal(name)))
      && (GoTo(Labels(p), s, v).Ok? ==>
            var j := GoTo(Labels(p), s, v).value.ip;
            && j < |p| && p[j] == Label(Literal(name))
            && (forall i :: j < i < |p| ==> p[i] != Label(Literal(name)))
            && GoTo(Labels(p), s, v).value == s.(ip := j))
  {
    LabelsSpec(p);
  }

  /** BNE branches exactly when the flag is 0 and BEQ exactly when it is 1; otherwise both move
      on without looking the label up. */
  lemma BranchTaken(d: Dialect, p: seq<Instruction>, labels: map<u16, nat>, s: State)
    requires s.ip < |p| && |s.memory| >= MIN_CELLS
    requires p[s.ip].BranchIfNotEqual? || p[s.ip].BranchIfEqual?
    ensures
      var taken := if p[s.ip].BranchIfNotEqual? then s.memory[COMPARE_CELL] == 0 else s.memory[COMPARE_CELL] == 1;
      && (taken ==> Next(d, p, labels, s) == GoTo(labels, s, p[s.ip].operand))
      && (!taken ==> Next(d, p, labels, s) == Ok(s.(ip := s.ip + 1)))
  {
  }

  /** JMP pushes its own index and goes to the label; RTN fails on an empty stack and
      otherwise pops `k` and resumes at `k + 1`. Neither touches memory or I/O. */
  lemma CallsAndReturns(d: Dialect, p: seq<Instruction>, labels: map<u16, nat>, s: State)
    requires s.ip < |p| && |s.memory| >= MIN_CELLS
    ensures p[s.ip].Jump? ==>
      && (Next(d, p, labels, s).Ok? <==> GoTo(labels, s, p[s.ip].operand).Ok?)
      && (Next(d, p, labels, s).Ok? ==>
            Next(d, p, labels, s).value == s.(ip := GoTo(labels, s, p[s.ip].operand).value.ip, stack := s.stack + [s.ip]))
    ensures p[s.ip].Return? ==>
      && (Next(d, p, labels, s) == Err(EmptyCallStack) <==> s.stack == [])
      && (s.stack != [] ==>
            Next(d, p, labels, s) == Ok(s.(ip := s.stack[|s.stack| - 1] + 1, stack := s.stack[..|s.stack| - 1])))
  {
  }

  /** A RTN executed with the stack a JMP left behind resumes right after that JMP, with the
      stack as it was before it. */
  lemma ReturnAfterJump(d: Dialect, p: seq<Instruction>, labels: map<u16, nat>, s: State, later: State)
    requires s.ip < |p| && |s.memory| >= MIN_CELLS && p[s.ip].Jump? && Next(d, p, labels, s).Ok?
    requires later.ip < |p| && |later.memory| >= MIN_CELLS && p[later.ip].Return?
    requires later.stack == Next(d, p, labels, s).value.stack
    ensures Next(d, p, labels, later).Ok?
    ensures Next(d, p, labels, later).value.ip == s.ip + 1 && Next(d, p, labels, later).value.stack == s.stack
  {
    CallsAndReturns(d, p, labels, s);
    CallsAndReturns(d, p, labels, later);
    assert (s.stack + [s.ip])[..|s.stack|] == s.stack;
  }

  /** The stack grows by one on each JMP, shrinks by one on each RTN, and is left alone by
      every other instruction. */
  lemma StackDiscipline(d: Dialect, p: seq<Instruction>, labels: map<u16, nat>, s: State)
    requires s.ip < |p| && |s.memory| >= MIN_CELLS && Next(d, p, labels, s).Ok?
    ensures p[s.ip].Jump? ==> |Next(d, p, labels, s).value.stack| == |s.stack| + 1
    ensures p[s.ip].Return? ==> |Next(d, p, labels, s).value.stack| == |s.stack| - 1
    ensures !p[s.ip].Jump? && !p[s.ip].Return? ==> Next(d, p, labels, s).value.stack == s.stack
  {
  }

  /** LAB, GTN, LTN, GTE, LTE and EXT only move on; in particular EXT does not stop the run. */
  lemma NoOpsAdvance(d: Dialect, p: seq<Instruction>, labels: map<u16, nat>, s: State)
    requires s.ip < |p| && |s.memory| >= MIN_CELLS
    requires p[s.ip].Label? || p[s.ip].GreaterThan? || p[s.ip].LessThan?
          || p[s.ip].GreaterThanEqual? || p[s.ip].LessThanEqual? || p[s.ip].Exit?
    ensures Next(d, p, labels, s) == Ok(s.(ip := s.ip + 1))
  {
  }

  /** Only CIN reads input; in the library engine it consumes one unit and echoes it, in the
      older engine it reads 0 at the end of the input and prints nothing. */
  lemma InputConsumed(d: Dialect, p: seq<Instruction>, labels: map<u16, nat>, s: State)
    requires s.ip < |p| && |s.memory| >= MIN_CELLS && Next(d, p, labels, s).Ok?
    ensures !p[s.ip].CharacterInput? ==> Next(d, p, labels, s).value.input == s.input
    ensures p[s.ip].CharacterInput? && d == Library ==>
      && s.input != []
      && Next(d, p, labels, s).value.input == s.input[1..]
      && Next(d, p, labels, s).value.memory[Target(s)] == s.input[0] % 65536
      && Next(d, p, labels, s).value.output == s.output + [Character(s.input[0])]
    ensures p[s.ip].CharacterInput? && d == Legacy ==>
      && Next(d, p, labels, s).value.memory[Target(s)] == (if s.input == [] then 0 else s.input[0] % 65536)
      && Next(d, p, labels, s).value.output == s.output
  {
  }

  /** With 65536 or more cells every index exists: no step fails out of bounds. */
  lemma NoOutOfBoundsInFullMemory(d: Dialect, p: seq<Instruction>, labels: map<u16, nat>, s: State)
    requires s.ip < |p| && |s.memory| >= 0x1_0000
    ensures Next(d, p, labels, s) != Err(OutOfBounds)
  {
    assert forall v :: GetLiteralValue(v, s.memory).Some?;
  }

  /** With the 65535 cells of the older engine, cell 65535 does not exist: a target of 65535
      makes OUT, CUT, CIN, SET and CEQ fail, and so does an Address operand of 65535. */
  lemma LastCellMissing(d: Dialect, p: seq<Instruction>, labels: map<u16, nat>, s: State)
    requires s.ip < |p| && |s.memory| == MIN_CELLS
    ensures GetLiteralValue(Address(0xFFFF), s.memory).None?
    ensures Target(s) == 0xFFFF && (p[s.ip].Output? || p[s.ip].CharacterOutput? || (p[s.ip].CharacterInput? && d == Legacy)) ==>
      Next(d, p, labels, s) == Err(OutOfBounds)
    ensures p[s.ip] == SetValue(Address(0xFFFF)) || p[s.ip] == SetAddress(Address(0xFFFF)) || p[s.ip] == Compare(Address(0xFFFF)) ==>
      Next(d, p, labels, s) == Err(OutOfBounds)
  {
  }

  // ---------------------------------------------------------------------------
  // Laws of a run

  /** A run finishes exactly when ip has left the program. */
  lemma {:induction false} FinishedIff(d: Dialect, p: seq<Instruction>, labels: map<u16, nat>, s: State, fuel: nat)
    requires |s.memory| >= MIN_CELLS
    ensures Execute(d, p, labels, s, fuel).status == Finished <==> Execute(d, p, labels, s, fuel).final.ip >= |p|
    decreases fuel
  {
    if s.ip < |p| && fuel > 0 && Next(d, p, labels, s).Ok? {
      FinishedIff(d, p, labels, Next(d, p, labels, s).value, fuel - 1);
    }
  }

  /** A run that ended before its fuel ran out ends the same way with more fuel. */
  lemma {:induction false} MoreFuel(d: Dialect, p: seq<Instruction>, labels: map<u16, nat>, s: State, fuel: nat, extra: nat)
    requires |s.memory| >= MIN_CELLS
    requires Execute(d, p, labels, s, fuel).status != OutOfFuel
    ensures Execute(d, p, labels, s, fuel + extra) == Execute(d, p, labels, s, fuel)
    decreases fuel
  {
    if s.ip < |p| && fuel > 0 && Next(d, p, labels, s).Ok? {
      MoreFuel(d, p, labels, Next(d, p, labels, s).value, fuel - 1, extra);
    }
  }

  /** Running `a` steps and then `b` more is running `a + b` steps. */
  lemma {:induction false} ExecuteCompose(d: Dialect, p: seq<Instruction>, labels: map<u16, nat>, s: State, a: nat, b: nat)
    requires |s.memory| >= MIN_CELLS
    requires Execute(d, p, labels, s, a).status == OutOfFuel
    ensures Execute(d, p, labels, s, a + b) == Execute(d, p, labels, Execute(d, p, labels, s, a).final, b)
    decreases a
  {
    if a > 0 {
      var r := Next(d, p, labels, s);
      ExecuteUnfold(d, p, labels, s, a);
      ExecuteUnfold(d, p, labels, s, a + b);
      ExecuteCompose(d, p, labels, r.value, a - 1, b);
    }
  }

  /** One step of a run that has fuel left and does not fail. */
  lemma ExecuteUnfold(d: Dialect, p: seq<Instruction>, labels: map<u16, nat>, s: State, fuel: nat)
    requires |s.memory| >= MIN_CELLS && s.ip < |p| && fuel > 0 && Next(d, p, labels, s).Ok?
    ensures Execute(d, p, labels, s, fuel) == Execute(d, p, labels, Next(d, p, labels, s).value, fuel - 1)
  {
  }

  /** `SEA 0x0000`, `SET 0x0041`, `CUT` prints the character A and finishes. */
  lemma PrintsA(labels: map<u16, nat>)
    ensures
      var t := Execute(Library, [SetAddress(Literal(0x0000)), SetValue(Literal(0x0041)), CharacterOutput], labels,
                       Initial(MIN_CELLS, []), 3);
      t.status == Finished && t.final.output == [Character(0x41)]
  {
    var p := [SetAddress(Literal(0x0000)), SetValue(Literal(0x0041)), CharacterOutput];
    var s0 := Initial(MIN_CELLS, []);
    var s1 := Next(Library, p, labels, s0).value;
    assert s1.memory[ADDRESS_CELL] == 0;
    var s2 := Next(Library, p, labels, s1).value;
    assert s2.memory[0] == 0x41 && s2.memory[ADDRESS_CELL] == 0;
    var s3 := Next(Library, p, labels, s2).value;
    assert s3.output == [Character(0x41)];
  }

  // ---------------------------------------------------------------------------
  // The machine

  class Machine {
    const dialect: Dialect
    const program: seq<Instruction>
    /** The label table, built once before the loop. */
    const labels: map<u16, nat>
    const memory: array<u16>
    var ip: nat
    /** The caller stack: the index of every JMP not yet returned from. */
    var stack: seq<nat>
    var input: seq<nat>
    var output: seq<Token>

    ghost predicate Valid()
      reads this
    {
      labels == Labels(program) && memory.Length >= MIN_CELLS
    }

    function Snapshot(): State
      reads this, memory
    {
      State(memory[..], ip, stack, input, output)
    }

    /** The machine after a step: the spec step's state, or the unchanged machine and its error. */
    ghost predicate Follows(spec: Result<State, RuntimeError>, error: Option<RuntimeError>, before: State)
      reads this, memory
    {
      match spec
      case Ok(s) => error == None && Snapshot() == s
      case Err(e) => error == Some(e) && Snapshot() == before
    }

    constructor (dialect: Dialect, program: seq<Instruction>, cells: nat, input: seq<nat>)
      requires cells >= MIN_CELLS
      ensures Valid() && fresh(memory)
      ensures this.dialect == dialect && this.program == program
      ensures Snapshot() == Initial(cells, input)
    {
      this.dialect := dialect;
      this.program := program;
      labels := Labels(program);
      memory := new u16[cells](_ => 0);
      ip := 0;
      stack := [];
      this.input := input;
      output := [];
      new;
      assert memory[..] == seq(cells, _ => 0);
    }

    /** `memory[memory[ADDRESS_ADDRESS]] = value`, once the target is known to exist. */
    method Store(t: nat, value: u16)
      requires t < memory.Length
      modifies memory
      ensures memory[..] == old(memory[..])[t := value]
    {
      memory[t] := value;
    }

    /** `get_literal_value` on the memory array. */
    method Operand(v: Value) returns (r: Result<u16, RuntimeError>)
      ensures r == Resolve(v, memory[..])
    {
      match v
      case Literal(literal) =>
        r := Ok(literal);
      case Address(address) =>
        if address < memory.Length {
          r := Ok(memory[address]);
        } else {
          r := Err(OutOfBounds);
        }
    }

    /** OUT, CUT and DMP: print, and move on. */
    method Print() returns (error: Option<RuntimeError>)
      requires Valid() && ip < |program|
      requires program[ip].Output? || program[ip].CharacterOutput? || program[ip].Dump?
      modifies this
      ensures Valid()
      ensures Follows(Next(dialect, program, labels, old(Snapshot())), error, old(Snapshot()))
    {
      var t := memory[ADDRESS_CELL] as nat;
      if program[ip].Dump? {
        output := output + [MemoryDump(memory[..])];
      } else if t >= memory.Length {
        return Some(OutOfBounds);
      } else if program[ip].Output? {
        output := output + [Number(memory[t])];
      } else if 0xD800 <= memory[t] <= 0xDFFF {
        return Some(InvalidCharacter(memory[t]));
      } else {
        output := output + [Character(memory[t])];
      }
      ip := ip + 1;
      error := None;
    }

    /** CIN: one unit of input into the target cell, truncated to 16 bits. */
    method ReadInput() returns (error: Option<RuntimeError>)
      requires Valid() && ip < |program| && program[ip].CharacterInput?
      modifies this, memory
      ensures Valid()
      ensures Follows(Next(dialect, program, labels, old(Snapshot())), error, old(Snapshot()))
    {
      if dialect == Library && input == [] {
        return Some(InputFailure);
      }
      var t := memory[ADDRESS_CELL] as nat;
      if t >= memory.Length {
        return Some(OutOfBounds);
      }
      var unit := 0;
      if input != [] {
        unit := input[0];
        input := input[1..];
      }
      Store(t, unit % 0x1_0000);
      if dialect == Library {
        output := output + [Character(unit)];
      }
      ip := ip + 1;
      error := None;
    }

    /** RTN: resume after the most recent JMP. */
    method ReturnToCaller() returns (error: Option<RuntimeError>)
      requires Valid() && ip < |program| && program[ip].Return?
      modifies this
      ensures Valid()
      ensures Follows(Next(dialect, program, labels, old(Snapshot())), error, old(Snapshot()))
    {
      if |stack| == 0 {
        return Some(EmptyCallStack);
      }
      ip := stack[|stack| - 1];
      stack := stack[..|stack| - 1];
      ip := ip + 1;
      error := None;
    }

    /** SEA writes the address register, SET the target cell. */
    method Assign() returns (error: Option<RuntimeError>)
      requires Valid() && ip < |program| && (program[ip].SetAddress? || program[ip].SetValue?)
      modifies this, memory
      ensures Valid()
      ensures Follows(Next(dialect, program, labels, old(Snapshot())), error, old(Snapshot()))
    {
      var x := Operand(program[ip].operand);
      if x.Err? {
        return Some(x.error);
      }
      if program[ip].SetAddress? {
        Store(ADDRESS_CELL, x.value);
      } else {
        var t := memory[ADDRESS_CELL] as nat;
        if t >= memory.Length {
          return Some(OutOfBounds);
        }
        Store(t, x.value);
      }
      ip := ip + 1;
      error := None;
    }

    /** ADD, SUB, MUL and DIV on the target cell, with `Wrapping` arithmetic. */
    method Calculate() returns (error: Option<RuntimeError>)
      requires Valid() && ip < |program|
      requires program[ip].Add? || program[ip].Subtract? || program[ip].Multiply? || program[ip].Divide?
      modifies this, memory
      ensures Valid()
      ensures Follows(Next(dialect, program, labels, old(Snapshot())), error, old(Snapshot()))
    {
      var i := program[ip];
      ghost var s := Snapshot();
      assert Next(dialect, program, labels, s) == Arith(i, s);
      var t := memory[ADDRESS_CELL] as nat;
      if t >= memory.Length {
        return Some(OutOfBounds);
      }
      var x := Operand(i.operand);
      if x.Err? {
        return Some(x.error);
      }
      var a := memory[t];
      var y: u16;
      if i.Add? {
        y := (a as int + x.value as int) % 0x1_0000;
      } else if i.Subtract? {
        y := (a as int - x.value as int) % 0x1_0000;
      } else if i.Multiply? {
        y := (a as int * x.value as int) % 0x1_0000;
      } else {
        if x.value == 0 {
          return Some(DivisionByZero);
        }
        y := a / x.value;
      }
      assert Combine(i, a, x.value) == Some(y);
      Store(t, y);
      ip := ip + 1;
      error := None;
      assert Snapshot() == s.(memory := s.memory[t := y], ip := s.ip + 1);
    }

    /** CEQ: the flag cell becomes 1 when the target cell equals the operand, else 0. */
    method CompareTarget() returns (error: Option<RuntimeError>)
      requires Valid() && ip < |program| && program[ip].Compare?
      modifies this, memory
      ensures Valid()
      ensures Follows(Next(dialect, program, labels, old(Snapshot())), error, old(Snapshot()))
    {
      var x := Operand(program[ip].operand);
      if x.Err? {
        return Some(x.error);
      }
      var t := memory[ADDRESS_CELL] as nat;
      if t >= memory.Length {
        return Some(OutOfBounds);
      }
      Store(COMPARE_CELL, if memory[t] == x.value then 1 else 0);
      ip := ip + 1;
      error := None;
    }

    /** BNE and BEQ: jump to the label when the flag says so, else move on. */
    method Branch() returns (error: Option<RuntimeError>)
      requires Valid() && ip < |program| && (program[ip].BranchIfNotEqual? || program[ip].BranchIfEqual?)
      modifies this
      ensures Valid()
      ensures Follows(Next(dialect, program, labels, old(Snapshot())), error, old(Snapshot()))
    {
      var flag := memory[COMPARE_CELL];
      if (program[ip].BranchIfNotEqual? && flag == 0) || (program[ip].BranchIfEqual? && flag == 1) {
        var name := Operand(program[ip].operand);
        if name.Err? {
          return Some(name.error);
        }
        if name.value !in labels {
          return Some(UndeclaredLabel(name.value));
        }
        ip := labels[name.value];
      } else {
        ip := ip + 1;
      }
      error := None;
    }

    /** JMP: push the current index and go to the label. */
    method Call() returns (error: Option<RuntimeError>)
      requires Valid() && ip < |program| && program[ip].Jump?
      modifies this
      ensures Valid()
      ensures Follows(Next(dialect, program, labels, old(Snapshot())), error, old(Snapshot()))
    {
      var name := Operand(program[ip].operand);
      if name.Err? {
        return Some(name.error);
      }
      if name.value !in labels {
        return Some(UndeclaredLabel(name.value));
      }
      stack := stack + [ip];
      ip := labels[name.value];
      error := None;
    }

    /** One iteration of the dispatch loop. */
    method Step() returns (error: Option<RuntimeError>)
      requires Valid() && ip < |program|
      modifies this, memory
      ensures Valid()
      ensures Follows(Next(dialect, program, labels, old(Snapshot())), error, old(Snapshot()))
    {
      match program[ip]
      case Output => error := Print();
      case CharacterOutput => error := Print();
      case Dump => error := Print();
      case CharacterInput => error := ReadInput();
      case Return => error := ReturnToCaller();
      case SetAddress(_) => error := Assign();
      case SetValue(_) => error := Assign();
      case Add(_) => error := Calculate();
      case Subtract(_) => error := Calculate();
      case Multiply(_) => error := Calculate();
      case Divide(_) => error := Calculate();
      case Compare(_) => error := CompareTarget();
      case BranchIfNotEqual(_) => error := Branch();
      case BranchIfEqual(_) => error := Branch();
      case Jump(_) => error := Call();
      case _ =>
        ip := ip + 1;
        error := None;
    }

    /** The `while instruction_index < instructions.len()` loop, for at most `fuel` iterations. */
    method Run(fuel: nat) returns (status: Status)
      requires Valid()
      modifies this, memory
      ensures Valid()
      ensures Execute(dialect, program, labels, old(Snapshot()), fuel) == Trace(status, Snapshot())
    {
      var remaining := fuel;
      while ip < |program| && remaining > 0
        invariant Valid()
        invariant Execute(dialect, program, labels, old(Snapshot()), fuel) == Execute(dialect, program, labels, Snapshot(), remaining)
        decreases remaining
      {
        var error := Step();
        if error.Some? {
          return Failed(error.value);
        }
        remaining := remaining - 1;
      }
      status := if ip >= |program| then Finished else OutOfFuel;
    }
  }

  /** `interpret` on a fresh memory of `cells` cells: the status of the run and what it printed. */
  method Interpret(d: Dialect, p: seq<Instruction>, cells: nat, input: seq<nat>, fuel: nat)
    returns (status: Status, output: seq<Token>)
    requires cells >= MIN_CELLS
    ensures status == Execute(d, p, Labels(p), Initial(cells, input), fuel).status
    ensures output == Execute(d, p, Labels(p), Initial(cells, input), fuel).final.output
  {
    var machine := new Machine(d, p, cells, input);
    status := machine.Run(fuel);
    output := machine.output;
  }
}
