/** The evaluator itself: an object whose registers, flags, memory and trace each
    instruction updates.  Every method is proved to do exactly what the machine's
    functions say, refusals included. */
module ThumbEvaluation {
  import opened Options
  import opened ThumbWords
  import opened ThumbMachine
  import opened ThumbRuns
  import opened ThumbRanges

  /** The method went where the specification goes, or refused for its reason. */
  ghost predicate Agrees(spec: Outcome<State>, out: Outcome<()>, now: State) {
    match out
    case Went(_) => spec == Went(now)
    case Refused(why) => spec == Refused(why)
  }

  ghost predicate AgreesHalting(spec: Outcome<(State, bool)>, out: Outcome<bool>, now: State) {
    match out
    case Went(halted) => spec == Went((now, halted))
    case Refused(why) => spec == Refused(why)
  }

  predicate Asked(s: State) { true }

  /** A machine that steps as the instructions say; known of a state when asked. */
  ghost predicate StepsAs(step: Machine, cfg: Setup) {
    forall s {:trigger Asked(s)} :: Asked(s) ==> step(s) == Step(cfg, s)
  }

  class Evaluation {
    var cfg: Setup
    var r: Registers
    var f: Flags
    var memory: Memory
    var accesses: seq<Access>

    ghost function S(): State
      reads this
    {
      State(r, f, memory, accesses)
    }

    constructor (cfg: Setup, memory: Memory, sp: int, lr: int, pc: int)
      ensures this.cfg == cfg && this.memory == memory && accesses == []
      ensures f == Flags(false, false, false, false)
      ensures r[13] == sp && r[14] == lr && r[15] == Even(pc) && forall i :: 0 <= i < 13 ==> r[i] == 0
    {
      this.cfg, this.memory, accesses := cfg, memory, [];
      f := Flags(false, false, false, false);
      r := seq(16, i => if i == 13 then sp else if i == 14 then lr else if i == 15 then Even(pc) else 0);
    }

    /** Put content where a boot ROM copies it. */
    method Place(address: int, content: seq<Byte>)
      modifies this`cfg, this`memory
      ensures cfg == old(cfg).(regions := old(cfg).regions + [(address, |content|)])
      ensures forall a :: ByteAt(memory, a) ==
                if address <= a < address + |content| then content[a - address] else ByteAt(old(memory), a)
    {
      cfg := cfg.(regions := cfg.regions + [(address, |content|)]);
      for i := 0 to |content|
        invariant cfg == old(cfg).(regions := old(cfg).regions + [(address, |content|)])
        invariant forall a :: ByteAt(memory, a) ==
                    if address <= a < address + i then content[a - address] else ByteAt(old(memory), a)
      {
        ghost var before := memory;
        memory := memory[address + i := content[i]];
        forall a
          ensures ByteAt(memory, a) == (if a == address + i then content[i] else ByteAt(before, a))
        {
        }
      }
    }

    method LoadValue(address: int, width: nat, record: bool) returns (out: Outcome<nat>)
      requires Width(width)
      modifies this`accesses
      ensures Load(cfg, old(S()), address, width, record) ==
              match out case Went(value) => Went((S(), value)) case Refused(why) => Refused(why)
      ensures Kept(cfg, old(S()), S())
    {
      LoadKeeps(cfg, S(), address, width, record);
      if address % width != 0 {
        return Refused(Misaligned);
      }
      if Device(cfg, address) {
        var value := Mask(cfg.answer(address, width), width);
        if record {
          accesses := accesses + [Read(address, width, value)];
        }
        return Went(value);
      }
      if !Inside(cfg, address, width) {
        return Refused(OutsideMemory);
      }
      return Went(Bytes(memory, address, width));
    }

    method StoreValue(address: int, width: nat, value: int) returns (out: Outcome<()>)
      requires Width(width)
      modifies this`memory, this`accesses
      ensures Agrees(Store(cfg, old(S()), address, width, value), out, S())
      ensures Kept(cfg, old(S()), S())
    {
      StoreKeeps(cfg, S(), address, width, value);
      var masked := Mask(value, width);
      if address % width != 0 {
        return Refused(Misaligned);
      }
      if Device(cfg, address) {
        accesses := accesses + [Write(address, width, masked)];
        return Went(());
      }
      if !Inside(cfg, address, width) {
        return Refused(OutsideMemory);
      }
      ghost var before := memory;
      var left := masked;
      for i := 0 to width
        invariant Placed(before, address, width, masked) == Placed(memory, address + i, width - i, left)
        invariant accesses == old(accesses)
      {
        memory := memory[address + i := left % 256];
        left := left / 256;
      }
      return Went(());
    }

    method Add(a: int, b: int, carry: int, flags: bool) returns (result: nat)
      modifies this`f
      ensures result == AddWithCarry(a, b, carry).result
      ensures f == if flags then AddWithCarry(a, b, carry).flags else old(f)
    {
      var unsigned := a + b + carry;
      result := unsigned % WORD;
      if flags {
        var signed := ToSigned(a) + ToSigned(b) + carry;
        f := f.(n := result >= HALF, z := result == 0);
        f := f.(c := unsigned > WORD - 1, v := ToSigned(result) != signed);
      }
    }

    method Logic(value: int, carry: Option<bool>) returns (result: nat)
      modifies this`f
      ensures result == value % WORD && f == LogicFlags(old(f), value, carry)
    {
      result := value % WORD;
      f := f.(n := result >= HALF, z := result == 0);
      if carry.Some? {
        f := f.(c := carry.value);
      }
    }

    method SetRegister(d: nat, value: int)
      requires d < 16
      modifies this`r
      ensures S() == WriteRegister(old(S()), d, value)
    {
      if d == 15 {
        r := r[15 := Even(value)];
      } else {
        r := r[d := value % WORD];
      }
    }

    /** The destination gets a logical result, */
    method WriteLogic(d: nat, value: int, carry: Option<bool>)
      requires d < 16
      modifies this`r, this`f
      ensures S() == SetLogic(old(S()), d, value, carry)
    {
      var result := Logic(value, carry);
      r := r[d := result];
    }

    /** or a sum. */
    method WriteSum(d: nat, a: int, b: int, carry: int)
      requires d < 16
      modifies this`r, this`f
      ensures S() == SetSum(old(S()), d, AddWithCarry(a, b, carry))
    {
      var result := Add(a, b, carry, true);
      r := r[d := result];
    }

    method ProcessData(op: nat, m: nat, d: nat)
      requires op < 16 && m < 8 && d < 8
      modifies this`r, this`f
      ensures S() == DataProcessing(old(S()), op, m, d)
    {
      var a, b := r[d], r[m];
      if op == 0 {
        WriteLogic(d, Bitwise(And, a, b, WIDTH), None);
      } else if op == 1 {
        WriteLogic(d, Bitwise(Xor, a, b, WIDTH), None);
      } else if op == 2 || op == 3 || op == 4 || op == 7 {
        var shifted := Shift(if op == 7 then 3 else op - 2, a, b % 256, f.c);
        WriteLogic(d, shifted.0, Some(shifted.1));
      } else if op == 5 {
        WriteSum(d, a, b, if f.c then 1 else 0);
      } else if op == 6 {
        WriteSum(d, a, Not(b), if f.c then 1 else 0);
      } else if op == 8 {
        var ignored := Logic(Bitwise(And, a, b, WIDTH), None);
      } else if op == 9 {
        WriteSum(d, Not(b), 0, 1);
      } else if op == 10 {
        var ignored := Add(a, Not(b), 1, true);
      } else if op == 11 {
        var ignored := Add(a, b, 0, true);
      } else if op == 12 {
        WriteLogic(d, Bitwise(Or, a, b, WIDTH), None);
      } else if op == 13 {
        WriteLogic(d, a * b, None);
      } else if op == 14 {
        WriteLogic(d, Bitwise(And, a, -b - 1, WIDTH), None);
      } else {
        WriteLogic(d, -b - 1, None);
      }
    }

    method ShiftByImmediate(h: nat)
      modifies this`r, this`f
      ensures S() == ShiftImmediate(old(S()), h)
    {
      var kind, amount := (h / 2048) % 4, (h / 64) % 32;
      if kind != 0 && amount == 0 {
        amount := 32;
      }
      var shifted := Shift(kind, r[(h / 8) % 8], amount, f.c);
      r := r[h % 8 := shifted.0];
      var ignored := Logic(r[h % 8], Some(shifted.1));
    }

    method AddOrSubtract(h: nat)
      modifies this`r, this`f
      ensures S() == AddSubtract(old(S()), h)
    {
      var operand := if (h / 1024) % 2 == 1 then (h / 64) % 8 else r[(h / 64) % 8];
      var a := r[(h / 8) % 8];
      if (h / 512) % 2 == 1 {
        WriteSum(h % 8, a, Not(operand), 1);
      } else {
        WriteSum(h % 8, a, operand, 0);
      }
    }

    method WithImmediate(h: nat)
      modifies this`r, this`f
      ensures S() == Immediate(old(S()), h)
    {
      var op, d, imm := (h / 2048) % 4, (h / 256) % 8, h % 256;
      if op == 0 {
        WriteLogic(d, imm, None);
      } else if op == 1 {
        var ignored := Add(r[d], Not(imm), 1, true);
      } else if op == 2 {
        WriteSum(d, r[d], imm, 0);
      } else {
        WriteSum(d, r[d], Not(imm), 1);
      }
    }

    method OnHighRegisters(h: nat, pc: int)
      modifies this`r, this`f
      ensures S() == HighRegister(old(S()), h, pc)
    {
      var op, d, m := (h / 256) % 4, 8 * ((h / 128) % 2) + h % 8, (h / 8) % 16;
      var left := if d == 15 then pc + 4 else r[d];
      var right := if m == 15 then pc + 4 else r[m];
      if op == 0 {
        SetRegister(d, (left + right) % WORD);
      } else if op == 1 {
        var ignored := Add(left, Not(right), 1, true);
      } else if op == 2 {
        SetRegister(d, right);
      } else {
        if (h / 128) % 2 == 1 {
          r := r[14 := pc + 2 + (1 - (pc + 2) % 2)];
        }
        r := r[15 := Even(right)];
      }
    }

    method LoadRegister(d: nat, address: int, width: nat) returns (out: Outcome<()>)
      requires d < 16 && Width(width)
      modifies this`r, this`accesses
      ensures Agrees(LoadInto(cfg, old(S()), d, address, width), out, S())
      ensures Kept(cfg, old(S()), S())
    {
      var value :- LoadValue(address, width, true);
      r := r[d := value];
      return Went(());
    }

    method LoadSignedRegister(d: nat, address: int, width: nat) returns (out: Outcome<()>)
      requires d < 16 && Width(width)
      modifies this`r, this`accesses
      ensures Agrees(LoadSigned(cfg, old(S()), d, address, width), out, S())
      ensures Kept(cfg, old(S()), S())
    {
      var value :- LoadValue(address, width, true);
      r := r[d := Sign(value, 8 * width)];
      return Went(());
    }

    method Move(t: nat, address: int, width: nat, loading: bool) returns (out: Outcome<()>)
      requires t < 16 && Width(width)
      modifies this`r, this`memory, this`accesses
      ensures Agrees(Transfer(cfg, old(S()), t, address, width, loading), out, S())
      ensures Kept(cfg, old(S()), S())
    {
      if loading {
        out := LoadRegister(t, address, width);
      } else {
        out := StoreValue(address, width, r[t]);
      }
    }

    method AtRegisterOffset(op: nat, t: nat, address: int) returns (out: Outcome<()>)
      requires t < 16
      modifies this`r, this`memory, this`accesses
      ensures Agrees(RegisterAccess(cfg, old(S()), op, t, address), out, S())
      ensures Kept(cfg, old(S()), S())
    {
      if op == 0 {
        out := StoreValue(address, 4, r[t]);
      } else if op == 1 {
        out := StoreValue(address, 2, r[t]);
      } else if op == 2 {
        out := StoreValue(address, 1, r[t]);
      } else if op == 3 {
        out := LoadSignedRegister(t, address, 1);
      } else if op == 4 {
        out := LoadRegister(t, address, 4);
      } else if op == 5 {
        out := LoadRegister(t, address, 2);
      } else if op == 6 {
        out := LoadRegister(t, address, 1);
      } else {
        out := LoadSignedRegister(t, address, 2);
      }
    }

    // The same three behind something already kept.

    method LoadOnward(d: nat, address: int, ghost was: State) returns (out: Outcome<()>)
      requires d < 16 && Kept(cfg, was, S())
      modifies this`r, this`accesses
      ensures Agrees(LoadListed(cfg, old(S()), d, address), out, S())
      ensures Kept(cfg, was, S())
    {
      ghost var before := S();
      out := LoadPopped(d, address);
      KeptOnward(cfg, was, before, S());
    }

    method LoadPopped(d: nat, address: int) returns (out: Outcome<()>)
      requires d < 16
      modifies this`r, this`accesses
      ensures Agrees(LoadListed(cfg, old(S()), d, address), out, S())
      ensures Kept(cfg, old(S()), S())
    {
      var value :- LoadValue(address, 4, true);
      r := r[d := if d == 15 then Even(value) else value];
      return Went(());
    }

    method StoreOnward(address: int, value: int, ghost was: State) returns (out: Outcome<()>)
      requires Kept(cfg, was, S())
      modifies this`memory, this`accesses
      ensures Agrees(Store(cfg, old(S()), address, 4, value), out, S())
      ensures Kept(cfg, was, S())
    {
      ghost var before := S();
      out := StoreValue(address, 4, value);
      KeptOnward(cfg, was, before, S());
    }

    method MoveOnward(t: nat, address: int, loading: bool, ghost was: State) returns (out: Outcome<()>)
      requires t < 16 && Kept(cfg, was, S())
      modifies this`r, this`memory, this`accesses
      ensures Agrees(Transfer(cfg, old(S()), t, address, 4, loading), out, S())
      ensures Kept(cfg, was, S())
    {
      ghost var before := S();
      out := Move(t, address, 4, loading);
      KeptOnward(cfg, was, before, S());
    }

    method MoveMultiple(h: nat) returns (out: Outcome<()>)
      modifies this`r, this`memory, this`accesses
      ensures Agrees(LoadStoreMultiple(cfg, old(S()), h), out, S())
      ensures Kept(cfg, old(S()), S())
    {
      var n, list, loading := (h / 256) % 8, h % 256, (h / 2048) % 2 == 1;
      var address := r[n];
      for i := 0 to 8
        invariant Multiple(cfg, old(S()), list, 0, old(r)[n], loading) == Multiple(cfg, S(), list, i, address, loading)
        invariant Kept(cfg, old(S()), S())
      {
        if BitOf(list, i) {
          var moved :- MoveOnward(i, address, loading, old(S()));
          address := address + 4;
        }
      }
      if !(loading && BitOf(list, n)) {
        r := r[n := address % WORD];
      }
      return Went(());
    }

    method PushList(h: nat) returns (out: Outcome<()>)
      modifies this`r, this`memory, this`accesses
      ensures Agrees(Push(cfg, old(S()), h), out, S())
      ensures Kept(cfg, old(S()), S())
    {
      var regs := Listed(h % 256, 0, if (h / 256) % 2 == 1 then Some(14) else None);
      var address := r[13] - 4 * |regs|;
      r := r[13 := address];
      ghost var start := S();
      for i := 0 to |regs|
        invariant StoreAll(cfg, start, regs, start.r[13]) == StoreAll(cfg, S(), regs[i..], address)
        invariant Kept(cfg, old(S()), S())
      {
        assert regs[i..][1..] == regs[i + 1..];
        var stored :- StoreOnward(address, r[regs[i]], old(S()));
        address := address + 4;
      }
      return Went(());
    }

    /** The loop of POP. */
    method LoadEach(regs: seq<nat>, from: int) returns (out: Outcome<()>)
      requires forall k :: 0 <= k < |regs| ==> regs[k] < 16
      modifies this`r, this`accesses
      ensures Agrees(LoadAll(cfg, old(S()), regs, from), out, S())
      ensures Kept(cfg, old(S()), S())
    {
      var address := from;
      for i := 0 to |regs|
        invariant LoadAll(cfg, old(S()), regs, from) == LoadAll(cfg, S(), regs[i..], address)
        invariant Kept(cfg, old(S()), S())
      {
        assert regs[i..][1..] == regs[i + 1..];
        var popped :- LoadOnward(regs[i], address, old(S()));
        address := address + 4;
      }
      return Went(());
    }

    method PopList(h: nat) returns (out: Outcome<()>)
      modifies this`r, this`accesses
      ensures Agrees(Pop(cfg, old(S()), h), out, S())
      ensures Kept(cfg, old(S()), S())
    {
      var regs := Listed(h % 256, 0, if (h / 256) % 2 == 1 then Some(15) else None);
      var address := r[13];
      var popped :- LoadEach(regs, address);
      r := r[13 := address + 4 * |regs|];
      return Went(());
    }

    method ExtendRegister(h: nat)
      modifies this`r
      ensures S() == Extend(old(S()), h)
    {
      var value, op := r[(h / 8) % 8], (h / 64) % 4;
      r := r[h % 8 :=
        if op == 0 then Sign(value % 0x1_0000, 16)
        else if op == 1 then Sign(value % 0x100, 8)
        else if op == 2 then value % 0x1_0000
        else value % 0x100];
    }

    method ReverseRegister(h: nat) returns (out: Outcome<()>)
      modifies this`r
      ensures Agrees(Reverse(old(S()), h), out, S())
    {
      var value, op := r[(h / 8) % 8], (h / 64) % 4;
      if !IsWord(value) {
        return Refused(NotAWord);
      }
      if op == 2 {
        return Refused(UndefinedInstruction);
      }
      r := r[h % 8 := Swapped(value, op)];
      return Went(());
    }

    method DoMiscellaneous(h: nat) returns (out: Outcome<bool>)
      modifies this`r, this`memory, this`accesses
      ensures AgreesHalting(Miscellaneous(cfg, old(S()), h), out, S())
      ensures Kept(cfg, old(S()), S())
    {
      if h / 256 == 0xb0 {
        var delta := (h % 128) * 4;
        r := r[13 := (if (h / 128) % 2 == 1 then r[13] - delta else r[13] + delta) % WORD];
      } else if h / 256 == 0xb2 {
        ExtendRegister(h);
      } else if h / 512 == 0x5a {
        var pushed :- PushList(h);
      } else if h / 512 == 0x5e {
        var popped :- PopList(h);
      } else if h == 0xb662 || h == 0xb672 {
      } else if h / 256 == 0xba {
        var reversed :- ReverseRegister(h);
      } else if h / 256 == 0xbe {
        return Refused(Breakpoint);
      } else if h == 0xbf30 {
        return Went(true);
      } else if h == 0xbf00 || h == 0xbf10 || h == 0xbf20 || h == 0xbf40 {
      } else {
        return Refused(UndefinedInstruction);
      }
      return Went(false);
    }

    method DoWide(first: nat, second: nat, pc: int) returns (out: Outcome<()>)
      modifies this`r, this`accesses
      ensures Agrees(Wide(cfg, old(S()), first, second, pc), out, S())
      ensures Kept(cfg, old(S()), S())
    {
      r := r[15 := pc + 4];
      if first / 2048 == 0x1e && second / 16384 == 3 && (second / 4096) % 2 == 1 {
        r := r[14 := pc + 4 + (1 - (pc + 4) % 2)];
        r := r[15 := (pc + 4 + LinkOffset(first, second)) % WORD];
      } else if first == 0xf3ef && second / 4096 == 8 {
        r := r[(second / 256) % 16 := 0];
      } else if first / 16 == 0xf38 && second / 256 == 0x88 {
        if cfg.special && (second % 256 == 8 || second % 256 == 9) {
          var value := r[first % 16];
          accesses := accesses + [Msr(second % 256 == 9, value)];
          if second % 256 == 8 {
            r := r[13 := value - value % 4];
          }
        }
      } else if first == 0xf3bf && 0x8f4 <= second / 16 <= 0x8f6 {
        var kind := if second / 16 == 0x8f4 then Dsb else if second / 16 == 0x8f5 then Dmb else Isb;
        accesses := accesses + [Barrier(kind)];
      } else {
        return Refused(UndefinedInstruction);
      }
      return Went(());
    }

    method DoLong(first: nat, pc: int) returns (out: Outcome<()>)
      modifies this`r, this`accesses
      ensures Agrees(Long(cfg, old(S()), first, pc), out, S())
      ensures Kept(cfg, old(S()), S())
    {
      var second :- LoadValue(pc + 2, 2, false);
      out := DoWide(first, second, pc);
    }

    /** The loads and stores that name one register. */
    method MoveOne(h: nat, pc: int) returns (out: Outcome<()>)
      requires MovesOne(h)
      modifies this`r, this`memory, this`accesses
      ensures Agrees(Transferred(cfg, old(S()), h, pc), out, S())
      ensures Kept(cfg, old(S()), S())
    {
      if h / 2048 == 9 {
        out := LoadRegister((h / 256) % 8, (pc + 4) - (pc + 4) % 4 + (h % 256) * 4, 4);
      } else if h / 4096 == 5 {
        out := AtRegisterOffset((h / 512) % 8, h % 8, (r[(h / 8) % 8] + r[(h / 64) % 8]) % WORD);
      } else if h / 8192 == 3 {
        var width := if (h / 4096) % 2 == 1 then 1 else 4;
        out := Move(h % 8, (r[(h / 8) % 8] + ((h / 64) % 32) * width) % WORD, width, (h / 2048) % 2 == 1);
      } else if h / 4096 == 8 {
        out := Move(h % 8, (r[(h / 8) % 8] + ((h / 64) % 32) * 2) % WORD, 2, (h / 2048) % 2 == 1);
      } else {
        out := Move((h / 256) % 8, (r[13] + (h % 256) * 4) % WORD, 4, (h / 2048) % 2 == 1);
      }
    }

    method BranchIf(h: nat, pc: int) returns (out: Outcome<()>)
      modifies this`r
      ensures Agrees(ConditionalBranch(old(S()), h, pc), out, S())
    {
      var cond := (h / 256) % 16;
      if cond >= 14 {
        return Refused(if cond == 14 then PermanentlyUndefined else SupervisorCall);
      }
      if Condition(cond, f) {
        r := r[15 := (pc + 4 + Sign(h % 256, 8) * 2) % WORD];
      }
      return Went(());
    }

    /** Execute the instruction fetched at `pc`. */
    method Dispatch(h: nat, pc: int) returns (out: Outcome<bool>)
      modifies this`r, this`f, this`memory, this`accesses
      ensures AgreesHalting(Execute(cfg, old(S()), h, pc), out, S())
      ensures Kept(cfg, old(S()), S())
    {
      var top := h / 2048;
      if h / 8192 == 0 && top != 3 {
        ShiftByImmediate(h);
      } else if top == 3 {
        AddOrSubtract(h);
      } else if h / 8192 == 1 {
        WithImmediate(h);
      } else if h / 1024 == 0x10 {
        ProcessData((h / 64) % 16, (h / 8) % 8, h % 8);
      } else if h / 1024 == 0x11 {
        OnHighRegisters(h, pc);
      } else if MovesOne(h) {
        var moved :- MoveOne(h, pc);
      } else if h / 4096 == 10 {
        var base := if (h / 2048) % 2 == 1 then r[13] else (pc + 4) - (pc + 4) % 4;
        r := r[(h / 256) % 8 := (base + (h % 256) * 4) % WORD];
      } else if h / 4096 == 11 {
        out := DoMiscellaneous(h);
        return;
      } else if h / 4096 == 12 {
        var moved :- MoveMultiple(h);
      } else if h / 4096 == 13 {
        var branched :- BranchIf(h, pc);
      } else if top == 0x1c {
        r := r[15 := (pc + 4 + Sign(h % 2048, 11) * 2) % WORD];
      } else if top == 0x1d || top == 0x1e || top == 0x1f {
        var done :- DoLong(h, pc);
      } else {
        return Refused(UndefinedInstruction);
      }
      return Went(false);
    }

    method StepOnce() returns (out: Outcome<bool>)
      modifies this`r, this`f, this`memory, this`accesses
      ensures AgreesHalting(Step(cfg, old(S())), out, S())
      ensures Kept(cfg, old(S()), S())
    {
      var pc := r[15];
      var h :- LoadValue(pc, 2, false);
      StepExecutes(cfg, old(S()), h, pc);
      r := r[15 := pc + 2];
      assert S() == Set(old(S()), 15, pc + 2);
      ghost var fetched := S();
      out := Dispatch(h, pc);
      KeptFromSame(cfg, old(S()), fetched, S());
    }

    /** The loop of a run, whatever is known of the machine it steps. */
    method Steps(ghost step: Machine, limit: nat, until: Option<int -> bool>) returns (out: Outcome<()>)
      requires StepsAs(step, cfg)
      modifies this`r, this`f, this`memory, this`accesses
      ensures cfg == old(cfg) && Agrees(RunOf(step, old(S()), limit, until), out, S())
      ensures Kept(cfg, old(S()), S())
    {
      ghost var was, spec := cfg, RunOf(step, S(), limit, until);
      var left := limit;
      while left > 0
        invariant cfg == was && spec == RunOf(step, S(), left, until) && Kept(cfg, old(S()), S())
      {
        var ended :- Turn(step, left, until, spec, old(S()));
        if ended {
          return Went(());
        }
        left := left - 1;
      }
      return Refused(NoWaitForInterrupt);
    }

    /** One turn of a run whose outcome is `spec`: leave, or step. */
    method Turn(ghost step: Machine, left: nat, until: Option<int -> bool>, ghost spec: Outcome<State>,
                ghost was: State)
      returns (out: Outcome<bool>)
      requires StepsAs(step, cfg) && left > 0 && spec == RunOf(step, S(), left, until) && Kept(cfg, was, S())
      modifies this`r, this`f, this`memory, this`accesses
      ensures out.Refused? ==> spec == Refused(out.why)
      ensures out.Went? && out.value ==> spec == Went(S())
      ensures out.Went? && !out.value ==> spec == RunOf(step, S(), left - 1, until)
      ensures Kept(cfg, was, S())
    {
      if until.Some? && until.value(r[15]) {
        return Went(true);
      }
      assert Asked(S());
      ghost var before := S();
      out := StepOnce();
      KeptOnward(cfg, was, before, S());
    }

    /** A whole run: what the machine's function says, and what every run keeps, the
        ones that are refused or run out of steps included. */
    method RunAll(limit: nat, until: Option<int -> bool>) returns (out: Outcome<()>)
      modifies this`r, this`f, this`memory, this`accesses
      ensures Agrees(Run(cfg, old(S()), limit, until), out, S())
      ensures Kept(cfg, old(S()), S())
      ensures out.Went? && old(Ranged(S(), LOWEST)) ==> Ranged(S(), LOWEST)
    {
      if Ranged(S(), LOWEST) {
        RunKeepsRange(cfg, S(), limit, until);
      }
      out := Steps(MachineOf(cfg), limit, until);
    }
  }
}
