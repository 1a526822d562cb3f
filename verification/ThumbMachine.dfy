/** What each ARMv6-M instruction does to the evaluator's state, as functions of
    the state: the specification the evaluator's methods are proved against, and
    what the theorems over whole runs are about. */
module ThumbMachine {
  import opened Options
  import opened ThumbWords

  datatype Refusal =
    | Misaligned
    | OutsideMemory
    | UndefinedInstruction
    | PermanentlyUndefined
    | SupervisorCall
    | Breakpoint
    | NotAWord
    | NoWaitForInterrupt

  datatype Outcome<+T> = Went(value: T) | Refused(why: Refusal) {
    predicate IsFailure() {
      Refused?
    }

    function PropagateFailure<U>(): Outcome<U>
      requires Refused?
    {
      Refused(why)
    }

    function Extract(): T
      requires Went?
    {
      value
    }
  }

  datatype BarrierKind = Dsb | Dmb | Isb

  /** One entry of the access trace. */
  datatype Access =
    | Read(address: int, width: nat, value: int)
    | Write(address: int, width: nat, value: int)
    | Msr(process: bool, value: int)
    | Barrier(kind: BarrierKind)

  type Registers = r: seq<int> | |r| == 16 witness seq(16, _ => 0)

  type Byte = b: int | 0 <= b < 256

  type Memory = map<int, Byte>

  datatype State = State(r: Registers, f: Flags, memory: Memory, accesses: seq<Access>)

  /** What stays the same during a run. */
  datatype Setup = Setup(regions: seq<(int, int)>, devices: seq<(int, int)>, answer: (int, nat) -> int, special: bool)

  predicate Width(width: nat) {
    width == 1 || width == 2 || width == 4
  }

  // ------------------------------------------------------------------
  // Memory

  predicate Device(cfg: Setup, address: int) {
    exists i :: 0 <= i < |cfg.devices| && cfg.devices[i].0 <= address < cfg.devices[i].0 + cfg.devices[i].1
  }

  predicate Inside(cfg: Setup, address: int, width: nat) {
    exists i :: 0 <= i < |cfg.regions| && cfg.regions[i].0 <= address
                && address + width <= cfg.regions[i].0 + cfg.regions[i].1
  }

  function ByteAt(memory: Memory, address: int): Byte {
    if address in memory then memory[address] else 0
  }

  /** Little endian. */
  function Bytes(memory: Memory, address: int, width: nat): nat
    decreases width
  {
    if width == 0 then 0 else ByteAt(memory, address) + 256 * Bytes(memory, address + 1, width - 1)
  }

  function Placed(memory: Memory, address: int, width: nat, value: int): Memory
    decreases width
  {
    if width == 0 then memory else Placed(memory[address := value % 256], address + 1, width - 1, value / 256)
  }

  function Mask(value: int, width: nat): nat
    requires Width(width)
  {
    if width == 1 then value % 0x100 else if width == 2 then value % 0x1_0000 else value % WORD
  }

  function Load(cfg: Setup, s: State, address: int, width: nat, record: bool): Outcome<(State, nat)>
    requires Width(width)
  {
    if address % width != 0 then Refused(Misaligned)
    else if Device(cfg, address) then
      var value := Mask(cfg.answer(address, width), width);
      Went((if record then s.(accesses := s.accesses + [Read(address, width, value)]) else s, value))
    else if !Inside(cfg, address, width) then Refused(OutsideMemory)
    else Went((s, Bytes(s.memory, address, width)))
  }

  function Store(cfg: Setup, s: State, address: int, width: nat, value: int): Outcome<State>
    requires Width(width)
  {
    if address % width != 0 then Refused(Misaligned)
    else if Device(cfg, address) then
      Went(s.(accesses := s.accesses + [Write(address, width, Mask(value, width))]))
    else if !Inside(cfg, address, width) then Refused(OutsideMemory)
    else Went(s.(memory := Placed(s.memory, address, width, Mask(value, width))))
  }

  // ------------------------------------------------------------------
  // Registers and flags

  function Set(s: State, d: nat, value: int): State
    requires d < 16
  {
    s.(r := s.r[d := value])
  }

  function LogicFlags(f: Flags, result: int, carry: Option<bool>): Flags {
    Flags(result % WORD >= HALF, result % WORD == 0, if carry.Some? then carry.value else f.c, f.v)
  }

  /** The destination gets the masked result and the flags describe it. */
  function SetLogic(s: State, d: nat, result: int, carry: Option<bool>): State
    requires d < 16
  {
    Set(s, d, result % WORD).(f := LogicFlags(s.f, result, carry))
  }

  function SetSum(s: State, d: nat, sum: Sum): State
    requires d < 16
  {
    Set(s, d, sum.result).(f := sum.flags)
  }

  function Even(value: int): int {
    value - value % 2
  }

  function WriteRegister(s: State, d: nat, value: int): State
    requires d < 16
  {
    if d == 15 then Set(s, 15, Even(value)) else Set(s, d, value % WORD)
  }

  /** A register as an operand: the program counter reads two instructions ahead. */
  function Operand(s: State, pc: int, n: nat): int
    requires n < 16
  {
    if n == 15 then pc + 4 else s.r[n]
  }

  predicate BitOf(x: int, n: nat) {
    Odd(Down(x, n))
  }

  // ------------------------------------------------------------------
  // Data processing

  function ShiftImmediate(s: State, h: nat): State {
    var kind, field := (h / 2048) % 4, (h / 64) % 32;
    var amount := if kind != 0 && field == 0 then 32 else field;
    var shifted := Shift(kind, s.r[(h / 8) % 8], amount, s.f.c);
    Set(s, h % 8, shifted.0).(f := LogicFlags(s.f, shifted.0, Some(shifted.1)))
  }

  function AddSubtract(s: State, h: nat): State {
    var operand := if (h / 1024) % 2 == 1 then (h / 64) % 8 else s.r[(h / 64) % 8];
    var a := s.r[(h / 8) % 8];
    SetSum(s, h % 8, if (h / 512) % 2 == 1 then AddWithCarry(a, Not(operand), 1) else AddWithCarry(a, operand, 0))
  }

  function Immediate(s: State, h: nat): State {
    var op, d, imm := (h / 2048) % 4, (h / 256) % 8, h % 256;
    if op == 0 then SetLogic(s, d, imm, None)
    else if op == 1 then s.(f := AddWithCarry(s.r[d], Not(imm), 1).flags)
    else if op == 2 then SetSum(s, d, AddWithCarry(s.r[d], imm, 0))
    else SetSum(s, d, AddWithCarry(s.r[d], Not(imm), 1))
  }

  function DataProcessing(s: State, op: nat, m: nat, d: nat): State
    requires op < 16 && m < 8 && d < 8
  {
    var a, b := s.r[d], s.r[m];
    var carry := if s.f.c then 1 else 0;
    if op == 0 then SetLogic(s, d, Bitwise(And, a, b, WIDTH), None)
    else if op == 1 then SetLogic(s, d, Bitwise(Xor, a, b, WIDTH), None)
    else if op == 2 || op == 3 || op == 4 || op == 7 then
      var kind := if op == 7 then 3 else op - 2;
      var shifted := Shift(kind, a, b % 256, s.f.c);
      SetLogic(s, d, shifted.0, Some(shifted.1))
    else if op == 5 then SetSum(s, d, AddWithCarry(a, b, carry))
    else if op == 6 then SetSum(s, d, AddWithCarry(a, Not(b), carry))
    else if op == 8 then s.(f := LogicFlags(s.f, Bitwise(And, a, b, WIDTH), None))
    else if op == 9 then SetSum(s, d, AddWithCarry(Not(b), 0, 1))
    else if op == 10 then s.(f := AddWithCarry(a, Not(b), 1).flags)
    else if op == 11 then s.(f := AddWithCarry(a, b, 0).flags)
    else if op == 12 then SetLogic(s, d, Bitwise(Or, a, b, WIDTH), None)
    else if op == 13 then SetLogic(s, d, a * b, None)
    else if op == 14 then SetLogic(s, d, Bitwise(And, a, -b - 1, WIDTH), None)
    else SetLogic(s, d, -b - 1, None)
  }

  function HighRegister(s: State, h: nat, pc: int): State {
    var op, d, m := (h / 256) % 4, 8 * ((h / 128) % 2) + h % 8, (h / 8) % 16;
    if op == 0 then WriteRegister(s, d, (Operand(s, pc, d) + Operand(s, pc, m)) % WORD)
    else if op == 1 then s.(f := AddWithCarry(Operand(s, pc, d), Not(Operand(s, pc, m)), 1).flags)
    else if op == 2 then WriteRegister(s, d, Operand(s, pc, m))
    else
      var target := Operand(s, pc, m);
      var linked := if (h / 128) % 2 == 1 then Set(s, 14, pc + 2 + (1 - (pc + 2) % 2)) else s;
      Set(linked, 15, Even(target))
  }

  // ------------------------------------------------------------------
  // Loads and stores

  function LoadInto(cfg: Setup, s: State, d: nat, address: int, width: nat): Outcome<State>
    requires d < 16 && Width(width)
  {
    var loaded :- Load(cfg, s, address, width, true);
    Went(Set(loaded.0, d, loaded.1))
  }

  function LoadSigned(cfg: Setup, s: State, d: nat, address: int, width: nat): Outcome<State>
    requires d < 16 && Width(width)
  {
    var loaded :- Load(cfg, s, address, width, true);
    Went(Set(loaded.0, d, Sign(loaded.1, 8 * width)))
  }

  function LoadLiteral(cfg: Setup, s: State, h: nat, pc: int): Outcome<State> {
    LoadInto(cfg, s, (h / 256) % 8, (pc + 4) - (pc + 4) % 4 + (h % 256) * 4, 4)
  }

  function RegisterOffset(cfg: Setup, s: State, h: nat): Outcome<State> {
    RegisterAccess(cfg, s, (h / 512) % 8, h % 8, (s.r[(h / 8) % 8] + s.r[(h / 64) % 8]) % WORD)
  }

  function RegisterAccess(cfg: Setup, s: State, op: nat, t: nat, address: int): Outcome<State>
    requires t < 16
  {
    if op == 0 then Store(cfg, s, address, 4, s.r[t])
    else if op == 1 then Store(cfg, s, address, 2, s.r[t])
    else if op == 2 then Store(cfg, s, address, 1, s.r[t])
    else if op == 3 then LoadSigned(cfg, s, t, address, 1)
    else if op == 4 then LoadInto(cfg, s, t, address, 4)
    else if op == 5 then LoadInto(cfg, s, t, address, 2)
    else if op == 6 then LoadInto(cfg, s, t, address, 1)
    else LoadSigned(cfg, s, t, address, 2)
  }

  function Transfer(cfg: Setup, s: State, t: nat, address: int, width: nat, loading: bool): Outcome<State>
    requires t < 16 && Width(width)
  {
    if loading then LoadInto(cfg, s, t, address, width) else Store(cfg, s, address, width, s.r[t])
  }

  function ImmediateOffset(cfg: Setup, s: State, h: nat): Outcome<State> {
    var width := if (h / 4096) % 2 == 1 then 1 else 4;
    Transfer(cfg, s, h % 8, (s.r[(h / 8) % 8] + ((h / 64) % 32) * width) % WORD, width, (h / 2048) % 2 == 1)
  }

  function Halfword(cfg: Setup, s: State, h: nat): Outcome<State> {
    Transfer(cfg, s, h % 8, (s.r[(h / 8) % 8] + ((h / 64) % 32) * 2) % WORD, 2, (h / 2048) % 2 == 1)
  }

  function StackRelative(cfg: Setup, s: State, h: nat): Outcome<State> {
    Transfer(cfg, s, (h / 256) % 8, (s.r[13] + (h % 256) * 4) % WORD, 4, (h / 2048) % 2 == 1)
  }

  function Address(s: State, h: nat, pc: int): State {
    var base := if (h / 2048) % 2 == 1 then s.r[13] else (pc + 4) - (pc + 4) % 4;
    Set(s, (h / 256) % 8, (base + (h % 256) * 4) % WORD)
  }

  /** LDM and STM from register `i` up; with the address after the last. */
  function Multiple(cfg: Setup, s: State, list: nat, i: nat, address: int, loading: bool): Outcome<(State, int)>
    requires i <= 8
    decreases 8 - i, list
  {
    if i == 8 then Went((s, address))
    else if !BitOf(list, i) then Multiple(cfg, s, list, i + 1, address, loading)
    else
      var moved :- Transfer(cfg, s, i, address, 4, loading);
      Multiple(cfg, moved, list, i + 1, address + 4, loading)
  }

  function LoadStoreMultiple(cfg: Setup, s: State, h: nat): Outcome<State> {
    var n, list, loading := (h / 256) % 8, h % 256, (h / 2048) % 2 == 1;
    var moved :- Multiple(cfg, s, list, 0, s.r[n], loading);
    Went(if loading && BitOf(list, n) then moved.0 else Set(moved.0, n, moved.1 % WORD))
  }

  // ------------------------------------------------------------------
  // Push and pop

  /** The registers of a list, in order, and then `last` if it is asked for. */
  function Listed(list: nat, i: nat, last: Option<nat>): (regs: seq<nat>)
    requires i <= 8 && (last.Some? ==> last.value < 16)
    ensures forall k :: 0 <= k < |regs| ==> regs[k] < 16
    decreases 8 - i, list
  {
    if i == 8 then (if last.Some? then [last.value] else [])
    else if BitOf(list, i) then [i] + Listed(list, i + 1, last)
    else Listed(list, i + 1, last)
  }

  function StoreAll(cfg: Setup, s: State, regs: seq<nat>, address: int): Outcome<State>
    requires forall k :: 0 <= k < |regs| ==> regs[k] < 16
    decreases regs
  {
    if regs == [] then Went(s)
    else
      var stored :- Store(cfg, s, address, 4, s.r[regs[0]]);
      StoreAll(cfg, stored, regs[1..], address + 4)
  }

  /** One register of a list: a program counter has bit 0 cleared. */
  function LoadListed(cfg: Setup, s: State, d: nat, address: int): Outcome<State>
    requires d < 16
  {
    var loaded :- Load(cfg, s, address, 4, true);
    Went(Set(loaded.0, d, if d == 15 then Even(loaded.1) else loaded.1))
  }

  function LoadAll(cfg: Setup, s: State, regs: seq<nat>, address: int): Outcome<State>
    requires forall k :: 0 <= k < |regs| ==> regs[k] < 16
    decreases regs
  {
    if regs == [] then Went(s)
    else
      var loaded :- LoadListed(cfg, s, regs[0], address);
      LoadAll(cfg, loaded, regs[1..], address + 4)
  }

  function Push(cfg: Setup, s: State, h: nat): Outcome<State> {
    PushAll(cfg, s, Listed(h % 256, 0, if (h / 256) % 2 == 1 then Some(14) else None))
  }

  function PushAll(cfg: Setup, s: State, regs: seq<nat>): Outcome<State>
    requires forall k :: 0 <= k < |regs| ==> regs[k] < 16
  {
    var address := s.r[13] - 4 * |regs|;
    StoreAll(cfg, Set(s, 13, address), regs, address)
  }

  function Pop(cfg: Setup, s: State, h: nat): Outcome<State> {
    PopAll(cfg, s, Listed(h % 256, 0, if (h / 256) % 2 == 1 then Some(15) else None))
  }

  function PopAll(cfg: Setup, s: State, regs: seq<nat>): Outcome<State>
    requires forall k :: 0 <= k < |regs| ==> regs[k] < 16
  {
    var popped :- LoadAll(cfg, s, regs, s.r[13]);
    Went(Set(popped, 13, s.r[13] + 4 * |regs|))
  }

  // ------------------------------------------------------------------
  // Everything else

  function Extend(s: State, h: nat): State {
    var value, op := s.r[(h / 8) % 8], (h / 64) % 4;
    Set(s, h % 8,
        if op == 0 then Sign(value % 0x1_0000, 16)
        else if op == 1 then Sign(value % 0x100, 8)
        else if op == 2 then value % 0x1_0000
        else value % 0x100)
  }

  /** Byte `i` of a word. */
  function ByteOf(value: int, i: nat): nat
    requires i < 4
  {
    (if i == 0 then value
     else if i == 1 then value / 0x100
     else if i == 2 then value / 0x1_0000
     else value / 0x100_0000) % 0x100
  }

  function Word(b3: nat, b2: nat, b1: nat, b0: nat): nat {
    b3 * 0x100_0000 + b2 * 0x1_0000 + b1 * 0x100 + b0
  }

  /** REV, REV16 and REVSH. */
  function Swapped(value: int, op: nat): int {
    var b0, b1, b2, b3 := ByteOf(value, 0), ByteOf(value, 1), ByteOf(value, 2), ByteOf(value, 3);
    if op == 0 then Word(b0, b1, b2, b3)
    else if op == 1 then Word(b2, b3, b0, b1)
    else Sign(b0 * 0x100 + b1, 16)
  }

  function Reverse(s: State, h: nat): Outcome<State> {
    var value, op := s.r[(h / 8) % 8], (h / 64) % 4;
    if !IsWord(value) then Refused(NotAWord)
    else if op == 2 then Refused(UndefinedInstruction)
    else Went(Set(s, h % 8, Swapped(value, op)))
  }

  /** With whether the run waits for an interrupt. */
  function Miscellaneous(cfg: Setup, s: State, h: nat): Outcome<(State, bool)> {
    if h / 256 == 0xb0 then
      var delta := (h % 128) * 4;
      Went((Set(s, 13, (if (h / 128) % 2 == 1 then s.r[13] - delta else s.r[13] + delta) % WORD), false))
    else if h / 256 == 0xb2 then Went((Extend(s, h), false))
    else if h / 512 == 0x5a then (var pushed :- Push(cfg, s, h); Went((pushed, false)))
    else if h / 512 == 0x5e then (var popped :- Pop(cfg, s, h); Went((popped, false)))
    else if h == 0xb662 || h == 0xb672 then Went((s, false))
    else if h / 256 == 0xba then (var reversed :- Reverse(s, h); Went((reversed, false)))
    else if h / 256 == 0xbe then Refused(Breakpoint)
    else if h == 0xbf30 then Went((s, true))
    else if h == 0xbf00 || h == 0xbf10 || h == 0xbf20 || h == 0xbf40 then Went((s, false))
    else Refused(UndefinedInstruction)
  }

  function ConditionalBranch(s: State, h: nat, pc: int): Outcome<State> {
    var cond := (h / 256) % 16;
    if cond == 14 then Refused(PermanentlyUndefined)
    else if cond == 15 then Refused(SupervisorCall)
    else if Condition(cond, s.f) then Went(Set(s, 15, (pc + 4 + Sign(h % 256, 8) * 2) % WORD))
    else Went(s)
  }

  function Branch(s: State, h: nat, pc: int): State {
    Set(s, 15, (pc + 4 + Sign(h % 2048, 11) * 2) % WORD)
  }

  /** Where a branch with link goes, relative to four bytes on. */
  function LinkOffset(first: nat, second: nat): int {
    var sign, j1, j2 := (first / 1024) % 2, (second / 8192) % 2, (second / 2048) % 2;
    var i1, i2 := if j1 == sign then 1 else 0, if j2 == sign then 1 else 0;
    Sign(sign * 0x100_0000 + i1 * 0x80_0000 + i2 * 0x40_0000 + (first % 1024) * 4096 + (second % 2048) * 2, 25)
  }

  function Wide(cfg: Setup, s: State, first: nat, second: nat, pc: int): Outcome<State> {
    var s := Set(s, 15, pc + 4);
    if first / 2048 == 0x1e && second / 16384 == 3 && (second / 4096) % 2 == 1 then
      Went(Set(Set(s, 14, pc + 4 + (1 - (pc + 4) % 2)), 15, (pc + 4 + LinkOffset(first, second)) % WORD))
    else if first == 0xf3ef && second / 4096 == 8 then Went(Set(s, (second / 256) % 16, 0))
    else if first / 16 == 0xf38 && second / 256 == 0x88 then
      if cfg.special && (second % 256 == 8 || second % 256 == 9) then
        var value := s.r[first % 16];
        var noted := s.(accesses := s.accesses + [Msr(second % 256 == 9, value)]);
        Went(if second % 256 == 8 then Set(noted, 13, value - value % 4) else noted)
      else Went(s)
    else if first == 0xf3bf && 0x8f4 <= second / 16 <= 0x8f6 then
      var kind := if second / 16 == 0x8f4 then Dsb else if second / 16 == 0x8f5 then Dmb else Isb;
      Went(s.(accesses := s.accesses + [Barrier(kind)]))
    else Refused(UndefinedInstruction)
  }

  /** A 32-bit instruction, with its second half fetched. */
  function Long(cfg: Setup, s: State, first: nat, pc: int): Outcome<State> {
    var second :- Load(cfg, s, pc + 2, 2, false);
    Wide(cfg, s, first, second.1, pc)
  }

  // ------------------------------------------------------------------
  // One step and a run

  function Quiet(outcome: Outcome<State>): Outcome<(State, bool)> {
    match outcome case Went(s) => Went((s, false)) case Refused(why) => Refused(why)
  }

  /** The loads and stores that name one register. */
  predicate MovesOne(h: nat) {
    h / 2048 == 9 || h / 4096 == 5 || h / 8192 == 3 || h / 4096 == 8 || h / 4096 == 9
  }

  function Transferred(cfg: Setup, s: State, h: nat, pc: int): Outcome<State>
    requires MovesOne(h)
  {
    if h / 2048 == 9 then LoadLiteral(cfg, s, h, pc)
    else if h / 4096 == 5 then RegisterOffset(cfg, s, h)
    else if h / 8192 == 3 then ImmediateOffset(cfg, s, h)
    else if h / 4096 == 8 then Halfword(cfg, s, h)
    else StackRelative(cfg, s, h)
  }

  /** The instruction `h` fetched at `pc`, with the program counter already past it. */
  function Execute(cfg: Setup, s: State, h: nat, pc: int): Outcome<(State, bool)> {
    var top := h / 2048;
    if h / 8192 == 0 && top != 3 then Went((ShiftImmediate(s, h), false))
    else if top == 3 then Went((AddSubtract(s, h), false))
    else if h / 8192 == 1 then Went((Immediate(s, h), false))
    else if h / 1024 == 0x10 then Went((DataProcessing(s, (h / 64) % 16, (h / 8) % 8, h % 8), false))
    else if h / 1024 == 0x11 then Went((HighRegister(s, h, pc), false))
    else if MovesOne(h) then Quiet(Transferred(cfg, s, h, pc))
    else if h / 4096 == 10 then Went((Address(s, h, pc), false))
    else if h / 4096 == 11 then Miscellaneous(cfg, s, h)
    else if h / 4096 == 12 then Quiet(LoadStoreMultiple(cfg, s, h))
    else if h / 4096 == 13 then Quiet(ConditionalBranch(s, h, pc))
    else if top == 0x1c then Went((Branch(s, h, pc), false))
    else if top == 0x1d || top == 0x1e || top == 0x1f then Quiet(Long(cfg, s, h, pc))
    else Refused(UndefinedInstruction)
  }

  function Step(cfg: Setup, s: State): Outcome<(State, bool)> {
    var pc := s.r[15];
    var fetched :- Load(cfg, s, pc, 2, false);
    Execute(cfg, Set(s, 15, pc + 2), fetched.1, pc)
  }

  /** A step of some machine: the state after it, and whether the run halts there. */
  type Machine = State -> Outcome<(State, bool)>

  /** Steps until the run leaves, halts, refuses or is out of steps. */
  function RunOf(step: Machine, s: State, limit: nat, until: Option<int -> bool>): Outcome<State>
    decreases limit
  {
    if limit == 0 then Refused(NoWaitForInterrupt)
    else if until.Some? && until.value(s.r[15]) then Went(s)
    else
      var stepped :- step(s);
      if stepped.1 then Went(stepped.0) else RunOf(step, stepped.0, limit - 1, until)
  }

  function MachineOf(cfg: Setup): Machine {
    s => Step(cfg, s)
  }

  function Run(cfg: Setup, s: State, limit: nat, until: Option<int -> bool>): Outcome<State> {
    RunOf(MachineOf(cfg), s, limit, until)
  }

  /** Every state a step is taken from is such a state. */
  ghost predicate Throughout(step: Machine, s: State, limit: nat, until: Option<int -> bool>, such: State -> bool)
    decreases limit
  {
    limit == 0 || (until.Some? && until.value(s.r[15])) ||
    (such(s) && (step(s).Went? && !step(s).value.1 ==> Throughout(step, step(s).value.0, limit - 1, until, such)))
  }

  /** Every state of the run is such a state, the last included. */
  ghost predicate Always(step: Machine, s: State, limit: nat, until: Option<int -> bool>, inv: State -> bool)
    decreases limit
  {
    inv(s) &&
    (limit == 0 || (until.Some? && until.value(s.r[15])) ||
     (step(s).Went? ==>
        if step(s).value.1 then inv(step(s).value.0) else Always(step, step(s).value.0, limit - 1, until, inv)))
  }

  /** Where a step keeps something exactly when it is taken from such a state, a run
      has it all along exactly when it steps from such states. */
  lemma {:induction false} AlwaysExactly(step: Machine, s: State, limit: nat, until: Option<int -> bool>,
                                         such: State -> bool, inv: State -> bool)
    requires inv(s) && forall x :: inv(x) ==> (such(x) <==> (step(x).Went? ==> inv(step(x).value.0)))
    ensures Always(step, s, limit, until, inv) <==> Throughout(step, s, limit, until, such)
    decreases limit
  {
    if limit > 0 && !(until.Some? && until.value(s.r[15])) && step(s).Went? && !step(s).value.1 && such(s) {
      AlwaysExactly(step, step(s).value.0, limit - 1, until, such, inv);
    }
  }

  /** What every step from such a state keeps, a run through such states keeps. */
  lemma {:induction false} RunOfKeeps(step: Machine, s: State, limit: nat, until: Option<int -> bool>,
                                      such: State -> bool, inv: State -> bool)
    requires Throughout(step, s, limit, until, such) && inv(s)
    requires forall x :: inv(x) && such(x) && step(x).Went? ==> inv(step(x).value.0)
    ensures var end := RunOf(step, s, limit, until); end.Went? ==> inv(end.value)
    decreases limit
  {
    if limit > 0 && !(until.Some? && until.value(s.r[15])) && step(s).Went? && !step(s).value.1 {
      RunOfKeeps(step, step(s).value.0, limit - 1, until, such, inv);
    }
  }

  lemma {:induction false} AlwaysThroughout(step: Machine, s: State, limit: nat, until: Option<int -> bool>,
                                            such: State -> bool)
    requires forall x :: such(x)
    ensures Throughout(step, s, limit, until, such)
    decreases limit
  {
    if limit > 0 && !(until.Some? && until.value(s.r[15])) && step(s).Went? && !step(s).value.1 {
      AlwaysThroughout(step, step(s).value.0, limit - 1, until, such);
    }
  }
}
