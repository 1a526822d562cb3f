/** A store and the load that reads it back, and PUSH and the POP that undoes it. */
module ThumbStack {
  import opened Options
  import opened ThumbWords
  import opened ThumbMachine
  import opened ThumbRuns

  lemma {:induction false} BytesSame(a: Memory, b: Memory, address: int, width: nat)
    requires forall i :: address <= i < address + width ==> ByteAt(a, i) == ByteAt(b, i)
    ensures Bytes(a, address, width) == Bytes(b, address, width)
    decreases width
  {
    if width > 0 {
      assert ByteAt(a, address) == ByteAt(b, address);
      BytesSame(a, b, address + 1, width - 1);
    }
  }

  lemma {:induction false} BytesOfPlaced(memory: Memory, address: int, width: nat, value: int)
    requires 0 <= value < Pow2(8 * width)
    ensures Bytes(Placed(memory, address, width, value), address, width) == value
    decreases width
  {
    if width > 0 {
      Pow2Adds(8, 8 * (width - 1));
      Pow2Facts();
      BytesOfPlaced(memory[address := value % 256], address + 1, width - 1, value / 256);
      PlacedAt(memory[address := value % 256], address + 1, width - 1, value / 256, address);
    }
  }

  lemma MaskFits(value: int, width: nat)
    requires Width(width)
    ensures Mask(value, width) < Pow2(8 * width)
  {
    Pow2Facts();
  }

  /** A load of what was stored answers the masked value. */
  lemma StoreThenLoad(cfg: Setup, s: State, address: int, width: nat, value: int, record: bool)
    requires Width(width) && !Device(cfg, address) && Store(cfg, s, address, width, value).Went?
    ensures var t := Store(cfg, s, address, width, value).value;
            Load(cfg, t, address, width, record) == Went((t, Mask(value, width)))
  {
    MaskFits(value, width);
    BytesOfPlaced(s.memory, address, width, Mask(value, width));
  }

  /** Bytes apart from the stored ones are as they were. */
  lemma StoreLeavesOthers(cfg: Setup, s: State, address: int, width: nat, value: int, a: int, n: nat)
    requires Width(width) && Store(cfg, s, address, width, value).Went?
    requires a + n <= address || address + width <= a
    ensures Bytes(Store(cfg, s, address, width, value).value.memory, a, n) == Bytes(s.memory, a, n)
  {
    var t := Store(cfg, s, address, width, value).value;
    forall i | a <= i < a + n
      ensures ByteAt(t.memory, i) == ByteAt(s.memory, i)
    {
      PlacedAt(s.memory, address, width, Mask(value, width), i);
    }
    BytesSame(t.memory, s.memory, a, n);
  }

  // ------------------------------------------------------------------
  // A run of words

  ghost predicate OffDevices(cfg: Setup, address: int, count: nat) {
    forall k :: 0 <= k < count ==> !Device(cfg, address + 4 * k)
  }

  ghost predicate HoldsWord(cfg: Setup, memory: Memory, a: int, value: int) {
    a % 4 == 0 && !Device(cfg, a) && Inside(cfg, a, 4) && Bytes(memory, a, 4) == value
  }

  /** The words at `address` are these values, and can be loaded. */
  ghost predicate Holds(cfg: Setup, memory: Memory, address: int, values: seq<int>) {
    forall k :: 0 <= k < |values| ==> HoldsWord(cfg, memory, address + 4 * k, values[k])
  }

  ghost function ValuesOf(s: State, regs: seq<nat>): seq<int>
    requires forall k :: 0 <= k < |regs| ==> regs[k] < 16
  {
    seq(|regs|, k requires 0 <= k < |regs| => s.r[regs[k]] % WORD)
  }

  lemma {:induction false} StoreAllHolds(cfg: Setup, s: State, regs: seq<nat>, address: int)
    requires forall k :: 0 <= k < |regs| ==> regs[k] < 16
    requires StoreAll(cfg, s, regs, address).Went? && OffDevices(cfg, address, |regs|)
    ensures var t := StoreAll(cfg, s, regs, address).value;
            && Holds(cfg, t.memory, address, ValuesOf(s, regs))
            && t.r == s.r && t.f == s.f && t.accesses == s.accesses
            && (forall a, n: nat :: a + n <= address ==> Bytes(t.memory, a, n) == Bytes(s.memory, a, n))
    decreases regs
  {
    if regs != [] {
      var t := Store(cfg, s, address, 4, s.r[regs[0]]).value;
      assert !Device(cfg, address + 4 * 0);
      forall k | 0 <= k < |regs| - 1
        ensures !Device(cfg, address + 4 + 4 * k)
      {
        assert !Device(cfg, address + 4 * (k + 1));
      }
      StoreAllHolds(cfg, t, regs[1..], address + 4);
      StoreThenLoad(cfg, s, address, 4, s.r[regs[0]], false);
      var u := StoreAll(cfg, s, regs, address).value;
      assert Bytes(u.memory, address, 4) == Bytes(t.memory, address, 4);
      HoldsMore(cfg, u.memory, address, ValuesOf(s, regs), ValuesOf(t, regs[1..]));
      forall a, n: nat | a + n <= address
        ensures Bytes(u.memory, a, n) == Bytes(s.memory, a, n)
      {
        StoreLeavesOthers(cfg, s, address, 4, s.r[regs[0]], a, n);
      }
    }
  }

  lemma HoldsMore(cfg: Setup, memory: Memory, address: int, values: seq<int>, rest: seq<int>)
    requires values != [] && rest == values[1..] && Holds(cfg, memory, address + 4, rest)
    requires HoldsWord(cfg, memory, address, values[0])
    ensures Holds(cfg, memory, address, values)
  {
    forall k | 0 <= k < |values|
      ensures HoldsWord(cfg, memory, address + 4 * k, values[k])
    {
      if k > 0 {
        assert HoldsWord(cfg, memory, address + 4 + 4 * (k - 1), rest[k - 1]);
      }
    }
  }

  lemma HoldsFewer(cfg: Setup, memory: Memory, address: int, values: seq<int>)
    requires values != [] && Holds(cfg, memory, address, values)
    ensures Holds(cfg, memory, address + 4, values[1..]) && HoldsWord(cfg, memory, address, values[0])
  {
    assert HoldsWord(cfg, memory, address + 4 * 0, values[0]);
    forall k | 0 <= k < |values| - 1
      ensures HoldsWord(cfg, memory, address + 4 + 4 * k, values[1..][k])
    {
      assert HoldsWord(cfg, memory, address + 4 * (k + 1), values[k + 1]);
    }
  }

  ghost predicate DistinctRegs(regs: seq<nat>) {
    forall i, j :: 0 <= i < j < |regs| ==> regs[i] != regs[j]
  }

  /** What loading `values` into `regs` leaves in each register. */
  lemma {:induction false} LoadAllReads(cfg: Setup, s: State, regs: seq<nat>, address: int, values: seq<int>)
    requires |values| == |regs| && DistinctRegs(regs) && forall k :: 0 <= k < |regs| ==> regs[k] < 16
    requires Holds(cfg, s.memory, address, values)
    ensures LoadAll(cfg, s, regs, address).Went?
    ensures var t := LoadAll(cfg, s, regs, address).value;
            && t.memory == s.memory && t.accesses == s.accesses && t.f == s.f
            && (forall k :: 0 <= k < |regs| ==> t.r[regs[k]] == if regs[k] == 15 then Even(values[k]) else values[k])
            && (forall d :: 0 <= d < 16 && d !in regs ==> t.r[d] == s.r[d])
    decreases regs
  {
    if regs != [] {
      HoldsFewer(cfg, s.memory, address, values);
      var value := if regs[0] == 15 then Even(values[0]) else values[0];
      LoadAllReads(cfg, Set(s, regs[0], value), regs[1..], address + 4, values[1..]);
      assert regs[0] !in regs[1..];
      var t := LoadAll(cfg, s, regs, address).value;
      forall k | 0 <= k < |regs|
        ensures t.r[regs[k]] == if regs[k] == 15 then Even(values[k]) else values[k]
      {
        if k > 0 {
          assert regs[1..][k - 1] == regs[k] && values[1..][k - 1] == values[k];
        }
      }
    }
  }

  // ------------------------------------------------------------------
  // Push, then pop

  lemma {:induction false} ListedLast(list: nat, i: nat, last: nat)
    requires i <= 8 && last < 16
    ensures Listed(list, i, Some(last)) == Listed(list, i, None) + [last]
    decreases 8 - i
  {
    if i < 8 {
      ListedLast(list, i + 1, last);
      if BitOf(list, i) {
        assert [i] + (Listed(list, i + 1, None) + [last]) == [i] + Listed(list, i + 1, None) + [last];
      }
    }
  }

  lemma {:induction false} ListedLow(list: nat, i: nat)
    requires i <= 8
    ensures forall d :: d in Listed(list, i, None) <==> i <= d < 8 && BitOf(list, d)
    decreases 8 - i
  {
    if i < 8 {
      ListedLow(list, i + 1);
    }
  }

  lemma {:induction false} ListedDistinct(list: nat, i: nat)
    requires i <= 8
    ensures DistinctRegs(Listed(list, i, None))
    decreases 8 - i
  {
    if i < 8 {
      ListedDistinct(list, i + 1);
      ListedLow(list, i + 1);
    }
  }

  lemma PushWithLink(cfg: Setup, s: State, list: nat)
    requires list < 256
    ensures var regs := Listed(list, 0, Some(14));
            var address := s.r[13] - 4 * |regs|;
            Push(cfg, s, 0xb500 + list) == StoreAll(cfg, Set(s, 13, address), regs, address)
  {
    assert (0xb500 + list) % 256 == list && ((0xb500 + list) / 256) % 2 == 1;
  }

  lemma PopWithCounter(cfg: Setup, s: State, list: nat)
    requires list < 256
    ensures var regs := Listed(list, 0, Some(15));
            var loaded := LoadAll(cfg, s, regs, s.r[13]);
            Pop(cfg, s, 0xbd00 + list) ==
              if loaded.Went? then Went(Set(loaded.value, 13, s.r[13] + 4 * |regs|)) else Refused(loaded.why)
  {
    assert (0xbd00 + list) % 256 == list && ((0xbd00 + list) / 256) % 2 == 1;
  }

  /** A list of low registers, each once. */
  ghost predicate LowRegs(low: seq<nat>) {
    DistinctRegs(low) && forall k :: 0 <= k < |low| ==> low[k] < 8
  }

  lemma ListedIsLow(list: nat)
    ensures LowRegs(Listed(list, 0, None))
  {
    ListedDistinct(list, 0);
    ListedLow(list, 0);
    assert forall k :: 0 <= k < |Listed(list, 0, None)| ==> Listed(list, 0, None)[k] in Listed(list, 0, None);
  }

  lemma StoreWithLink(cfg: Setup, s: State, low: seq<nat>, address: int)
    requires LowRegs(low) && OffDevices(cfg, address, |low| + 1)
    requires StoreAll(cfg, Set(s, 13, address), low + [14], address).Went?
    ensures var t := StoreAll(cfg, Set(s, 13, address), low + [14], address).value;
            t.r[13] == address && Holds(cfg, t.memory, address, ValuesOf(s, low) + [s.r[14] % WORD])
  {
    StoreAllHolds(cfg, Set(s, 13, address), low + [14], address);
    assert ValuesOf(Set(s, 13, address), low + [14]) == ValuesOf(s, low) + [s.r[14] % WORD];
  }

  lemma LoadWithCounter(cfg: Setup, u: State, low: seq<nat>, address: int, values: seq<int>, link: int)
    requires LowRegs(low) && |values| == |low| && Holds(cfg, u.memory, address, values + [link])
    ensures LoadAll(cfg, u, low + [15], address).Went?
    ensures var t := LoadAll(cfg, u, low + [15], address).value;
            && t.memory == u.memory && t.accesses == u.accesses && t.f == u.f && t.r[15] == Even(link)
            && (forall k :: 0 <= k < |low| ==> t.r[low[k]] == values[k])
            && (forall d :: 0 <= d < 15 && d !in low ==> t.r[d] == u.r[d])
  {
    var regs, all := low + [15], values + [link];
    LoadAllReads(cfg, u, regs, address, all);
    var t := LoadAll(cfg, u, regs, address).value;
    assert regs[|low|] == 15 && all[|low|] == link;
    forall k | 0 <= k < |low|
      ensures t.r[low[k]] == values[k]
    {
      assert regs[k] == low[k] && all[k] == values[k];
    }
  }

  lemma StoredThenLoaded(cfg: Setup, s: State, u: State, list: nat)
    requires OffDevices(cfg, StackAfter(s, list), |Listed(list, 0, Some(14))|)
    requires var address := StackAfter(s, list);
             var stored := StoreAll(cfg, Set(s, 13, address), Listed(list, 0, Some(14)), address);
             stored.Went? && u.memory == stored.value.memory
    ensures LoadAll(cfg, u, Listed(list, 0, Some(15)), StackAfter(s, list)).Went?
    ensures Restored(s, u, LoadAll(cfg, u, Listed(list, 0, Some(15)), StackAfter(s, list)).value, list)
  {
    var low, address := Listed(list, 0, None), StackAfter(s, list);
    ListedIsLow(list);
    ListedLow(list, 0);
    ListedLast(list, 0, 14);
    ListedLast(list, 0, 15);
    StoreWithLink(cfg, s, low, address);
    LoadWithCounter(cfg, u, low, address, ValuesOf(s, low), s.r[14] % WORD);
    var t := LoadAll(cfg, u, low + [15], address).value;
    forall d: nat | d < 8 && BitOf(list, d)
      ensures t.r[d] == s.r[d] % WORD
    {
      var k :| 0 <= k < |low| && low[k] == d;
      assert t.r[low[k]] == ValuesOf(s, low)[k];
    }
  }

  /** Where PUSH of the list and LR leaves the stack pointer. */
  ghost function StackAfter(s: State, list: nat): int {
    s.r[13] - 4 * |Listed(list, 0, Some(14))|
  }

  /** `t` has the listed registers and the return address of `s`, and the rest of `u`. */
  ghost predicate Restored(s: State, u: State, t: State, list: nat) {
    && t.r[15] == Even(s.r[14] % WORD)
    && (forall d :: 0 <= d < 8 && BitOf(list, d) ==> t.r[d] == s.r[d] % WORD)
    && (forall d :: 0 <= d < 15 && d != 13 && !(d < 8 && BitOf(list, d)) ==> t.r[d] == u.r[d])
    && t.memory == u.memory && t.accesses == u.accesses && t.f == u.f
  }

  lemma PushLowers(cfg: Setup, s: State, list: nat, pushed: State)
    requires list < 256 && Push(cfg, s, 0xb500 + list) == Went(pushed)
    ensures pushed.r[13] == StackAfter(s, list)
    ensures StoreAll(cfg, Set(s, 13, StackAfter(s, list)), Listed(list, 0, Some(14)), StackAfter(s, list))
            == Went(pushed)
  {
    PushWithLink(cfg, s, list);
    StoresBelow(cfg, s, Listed(list, 0, Some(14)), StackAfter(s, list), pushed);
  }

  lemma StoresBelow(cfg: Setup, s: State, regs: seq<nat>, address: int, pushed: State)
    requires (forall k :: 0 <= k < |regs| ==> regs[k] < 16)
    requires StoreAll(cfg, Set(s, 13, address), regs, address) == Went(pushed)
    ensures pushed.r[13] == address
  {
    StoreAllKeeps(cfg, Set(s, 13, address), regs, address);
  }

  lemma PopRaises(cfg: Setup, s: State, u: State, list: nat)
    requires list < 256 && u.r[13] == StackAfter(s, list)
    requires var loaded := LoadAll(cfg, u, Listed(list, 0, Some(15)), StackAfter(s, list));
             loaded.Went? && Restored(s, u, loaded.value, list)
    ensures Pop(cfg, u, 0xbd00 + list).Went?
    ensures var t := Pop(cfg, u, 0xbd00 + list).value; t.r[13] == s.r[13] && Restored(s, u, t, list)
  {
    PopWithCounter(cfg, u, list);
    ListedLast(list, 0, 14);
    ListedLast(list, 0, 15);
  }

  lemma RestoredByPop(cfg: Setup, s: State, pushed: State, u: State, list: nat)
    requires list < 256 && Push(cfg, s, 0xb500 + list) == Went(pushed)
    requires OffDevices(cfg, StackAfter(s, list), |Listed(list, 0, Some(14))|)
    requires u.memory == pushed.memory && u.r[13] == pushed.r[13]
    ensures Pop(cfg, u, 0xbd00 + list).Went?
    ensures var t := Pop(cfg, u, 0xbd00 + list).value; t.r[13] == s.r[13] && Restored(s, u, t, list)
  {
    PushLowers(cfg, s, list, pushed);
    StoredThenLoaded(cfg, s, u, list);
    PopRaises(cfg, s, u, list);
  }

  /** The halfwords of PUSH and POP. */
  lemma StackDecodes(cfg: Setup, s: State, list: nat, pc: int)
    requires list < 256
    ensures Execute(cfg, s, 0xb500 + list, pc) == Quiet(Push(cfg, s, 0xb500 + list))
    ensures Execute(cfg, s, 0xbd00 + list, pc) == Quiet(Pop(cfg, s, 0xbd00 + list))
  {
    PushDecodes(cfg, s, 0xb500 + list, pc);
    PopDecodes(cfg, s, 0xbd00 + list, pc);
  }

  lemma PushDecodes(cfg: Setup, s: State, h: nat, pc: int)
    requires h / 256 == 0xb5
    ensures Execute(cfg, s, h, pc) == Quiet(Push(cfg, s, h))
  {
    assert h / 4096 == 11 && h / 512 == 0x5a;
  }

  lemma PopDecodes(cfg: Setup, s: State, h: nat, pc: int)
    requires h / 256 == 0xbd
    ensures Execute(cfg, s, h, pc) == Quiet(Pop(cfg, s, h))
  {
    assert h / 4096 == 11 && h / 512 == 0x5e;
  }

  /** Executing PUSH of any list with LR, anything that keeps the stack pointer and
      the memory, and executing the matching POP with PC: every listed register is
      back, the stack pointer is back, and the program counter is LR with bit 0 clear. */
  lemma PushThenPop(cfg: Setup, s: State, pc: int, pushed: State, u: State, back: int, list: nat)
    requires list < 256 && Execute(cfg, s, 0xb500 + list, pc) == Went((pushed, false))
    requires OffDevices(cfg, StackAfter(s, list), |Listed(list, 0, Some(14))|)
    requires u.memory == pushed.memory && u.r[13] == pushed.r[13]
    ensures Execute(cfg, u, 0xbd00 + list, back).Went?
    ensures var (t, halted) := Execute(cfg, u, 0xbd00 + list, back).value;
            !halted && t.r[13] == s.r[13] && Restored(s, u, t, list)
  {
    StackDecodes(cfg, s, list, pc);
    StackDecodes(cfg, u, list, back);
    RestoredByPop(cfg, s, pushed, u, list);
  }
}
