/** The block words of blk.fs in their own form, over the machine of Vm.dfy. Its disk is
    reached only through the port handler, one byte at a time. */
module Blk {
  import opened Words
  import Vm
  import S = VmSpec
  import B = BlkSpec

  class BlkSystem {
    const vm: Vm.VM
    const base: word

    ghost predicate Valid()
      reads vm
    {
      vm.Valid() && B.Fit(base)
    }

    constructor (machine: Vm.VM, blkMem: word)
      requires machine.Valid() && B.Fit(blkMem)
      ensures Valid() && vm == machine && base == blkMem
    {
      vm, base := machine, blkMem;
    }

    method GetCell(a: word) returns (v: word)
      requires Valid() && a != 0xffff
      ensures v == WordAt(vm.mem[..], a)
    {
      v := (vm.mem[a] as int) + 0x100 * (vm.mem[a + 1] as int);
    }

    /** (blk@) is command 1, (blk!) is command 2. */
    method SendCommand(rw: byte, n: word, a: word)
      requires Valid()
      modifies vm, vm.mem, vm.blkop
      ensures vm.State() == B.SendCommand(old(vm.State()), rw, n, a)
    {
      hide S.IoWrite;
      vm.IoWrite(S.BLK_PORT, rw);
      vm.IoWrite(S.BLK_PORT, n / 0x100);
      vm.IoWrite(S.BLK_PORT, n % 0x100);
      vm.IoWrite(S.BLK_PORT, a / 0x100);
      vm.IoWrite(S.BLK_PORT, a % 0x100);
    }

    method SetCur(n: word)
      requires Valid()
      modifies vm, vm.mem, vm.blkop
      ensures vm.State() == B.SetCur(old(vm.State()), base, n)
    {
      vm.Sw(base + B.BLKCUR, n);
    }

    method SetDirty(d: word)
      requires Valid()
      modifies vm, vm.mem, vm.blkop
      ensures vm.State() == B.SetDirty(old(vm.State()), base, d)
    {
      vm.Sw(base + B.BLKDTY, d);
    }

    /** BLK$ */
    method Begin()
      requires Valid()
      modifies vm, vm.mem, vm.blkop
      ensures vm.State() == B.Begin(old(vm.State()), base)
    {
      hide B.SetCur, B.SetDirty;
      SetDirty(0);
      SetCur(B.NOBLK);
      vm.mem[base + 0x400] := 0x5c;
      vm.mem[base + 0x401] := 0x53;
      vm.mem[base + 0x402] := 0x20;
    }

    /** BLK! */
    method Store()
      requires Valid()
      modifies vm, vm.mem, vm.blkop
      ensures vm.State() == B.Store(old(vm.State()), base)
    {
      hide B.SendCommand, B.SetDirty;
      var cur := GetCell(base + B.BLKCUR);
      SendCommand(2, cur, base);
      SetDirty(0);
    }

    method Flush()
      requires Valid()
      modifies vm, vm.mem, vm.blkop
      ensures vm.State() == B.Flush(old(vm.State()), base)
    {
      hide B.Store, B.SetCur;
      var dirty := GetCell(base + B.BLKDTY);
      if dirty != 0 { Store(); }
      SetCur(B.NOBLK);
    }

    /** BLK@ */
    method Load(n: word)
      requires Valid()
      modifies vm, vm.mem, vm.blkop
      ensures vm.State() == B.Load(old(vm.State()), base, n)
    {
      hide B.Flush, B.SetCur, B.SendCommand;
      var cur := GetCell(base + B.BLKCUR);
      if n == cur { return; }
      Flush();
      SetCur(n);
      SendCommand(1, n, base);
    }

    /** WIPE: FILL stores one space after the other, then BLK!!. */
    method Wipe()
      requires Valid()
      modifies vm, vm.mem, vm.blkop
      ensures vm.State() == B.Wipe(old(vm.State()), base)
    {
      hide B.SetDirty;
      ghost var before := vm.State();
      var i := 0;
      while i < S.BLKSZ
        invariant i <= S.BLKSZ
        invariant vm.State() == before.(mem := vm.mem[..])
        invariant forall j :: 0 <= j < MEMSIZE ==>
                  vm.mem[j] == if base <= j < base + i then B.SPC else before.mem[j]
      {
        vm.mem[base + i] := B.SPC;
        i := i + 1;
      }
      assert vm.mem[..] == before.mem[..base] + seq(S.BLKSZ, _ => B.SPC) + before.mem[base + S.BLKSZ..];
      SetDirty(1);
    }

    method Copy(src: word, dst: word)
      requires Valid()
      modifies vm, vm.mem, vm.blkop
      ensures vm.State() == B.Copy(old(vm.State()), base, src, dst)
    {
      hide B.Flush, B.Load, B.SetCur, B.Store;
      Flush();
      Load(src);
      SetCur(dst);
      Store();
    }
  }
}
