/** The block subsystem of blk.fs (one write-back buffer) over the port protocol of
    cvm/vm.c, and the plain array of blocks that it refines. */
module BlkSpec {
  import opened Words
  import opened VmSpec

  /** Offsets of the subsystem's variables from BLK_MEM, which is also BLK(. */
  const BLKCUR: nat := 0x403
  const BLKDTY: nat := 0x405
  const BLKEND: nat := 0x409
  const NOBLK: word := 0xffff
  const SPC: byte := 0x20

  type Block = b: seq<byte> | |b| == BLKSZ witness seq(BLKSZ, _ => 0)

  /** BLK_MEM leaves room for the buffer and the variables. */
  predicate Fit(base: word) {
    base + BLKEND < MEMSIZE
  }

  function Cur(s: State, base: word): word
    requires Fit(base)
  {
    WordAt(s.mem, base + BLKCUR)
  }

  function Dirty(s: State, base: word): word
    requires Fit(base)
  {
    WordAt(s.mem, base + BLKDTY)
  }

  function Buffer(s: State, base: word): Block
    requires Fit(base)
  {
    s.mem[base..base + BLKSZ]
  }

  // ----- the driver -----

  /** `_`, (blk@) and (blk!) of cvm/cvm.fs: five bytes to port 3, high bytes first. */
  function SendCommand(s: State, rw: byte, n: word, a: word): State {
    var s1 := IoWrite(s, BLK_PORT, rw);
    var s2 := IoWrite(s1, BLK_PORT, n / 0x100);
    var s3 := IoWrite(s2, BLK_PORT, n % 0x100);
    var s4 := IoWrite(s3, BLK_PORT, a / 0x100);
    IoWrite(s4, BLK_PORT, a % 0x100)
  }

  /** What the C handler makes of five bytes on an idle port: the first says what to do, then
      come block number and address, high bytes first. Without a first byte nothing happens but
      that the others stay in the buffer. */
  lemma FiveBytes(s: State, port: word, rw: byte, bh: byte, bl: byte, ah: byte, al: byte)
    requires s.blkop == [0, 0, 0, 0] && port % 0x100 == 3
    ensures var t := IoWrite(IoWrite(IoWrite(IoWrite(IoWrite(s, port, rw), port, bh), port, bl), port, ah), port, al);
            var n, a := (bh as int) * 0x100 + bl, (ah as int) * 0x100 + al;
            t == if rw == 0 then s.(blkop := [al, ah, bl, bh])
                 else if a + 1024 > 0x1_0000 then s.(trapped := true)
                 else if rw == 2 then s.(blkfs := Fwrite(s.mem, a, s.blkfs, n * 1024))
                 else s.(mem := Fread(s.mem, a, s.blkfs, n * 1024))
  {
    hide Fread, Fwrite;
    var s1 := IoWrite(s, port, rw);
    assert s1.blkop == [rw, 0, 0, 0];
    var s2 := IoWrite(s1, port, bh);
    assert s2.blkop == [bh, rw, 0, 0];
    var s3 := IoWrite(s2, port, bl);
    assert s3.blkop == [bl, bh, rw, 0];
    var s4 := IoWrite(s3, port, ah);
    assert s4.blkop == [ah, bl, bh, rw];
  }

  /** A transfer into memory, byte by byte; the end of the file cuts it short. */
  lemma FreadAt(mem: Mem, dest: word, file: seq<byte>, off: nat, x: word)
    requires dest + 1024 <= MEMSIZE
    ensures Fread(mem, dest, file, off)[x] ==
            if dest <= x < dest + 1024 && off + (x - dest) < |file| then file[off + (x - dest)] else mem[x]
  {
  }

  /** A transfer into the file, byte by byte; a gap behind its end is filled with zeros. */
  lemma FwriteAt(mem: Mem, src: word, file: seq<byte>, off: nat, i: nat)
    requires src + 1024 <= MEMSIZE
    ensures var f := Fwrite(mem, src, file, off);
            && |f| == (if |file| < off + 1024 then off + 1024 else |file|)
            && (i < |f| ==> f[i] == if off <= i < off + 1024 then mem[src + (i - off)]
                                    else if i < |file| then file[i] else 0)
  {
  }

  /** Five port writes are one block transfer, and leave the port ready for the next. */
  lemma Protocol(s: State, rw: byte, n: word, a: word)
    requires s.blkop == [0, 0, 0, 0] && (rw == 1 || rw == 2) && a + BLKSZ <= MEMSIZE
    ensures SendCommand(s, rw, n, a) ==
            if rw == 2 then s.(blkfs := Fwrite(s.mem, a, s.blkfs, n * BLKSZ))
            else s.(mem := Fread(s.mem, a, s.blkfs, n * BLKSZ))
  {
    hide Fread, Fwrite;
    var s1 := IoWrite(s, BLK_PORT, rw);
    assert s1.blkop == [rw, 0, 0, 0];
    var s2 := IoWrite(s1, BLK_PORT, n / 0x100);
    assert s2.blkop == [n / 0x100, rw, 0, 0];
    var s3 := IoWrite(s2, BLK_PORT, n % 0x100);
    assert s3.blkop == [n % 0x100, n / 0x100, rw, 0];
    var s4 := IoWrite(s3, BLK_PORT, a / 0x100);
    assert s4.blkop == [a / 0x100, n % 0x100, n / 0x100, rw];
    assert (s4.blkop[2] as int) * 0x100 + (s4.blkop[1] as int) == n;
    assert (s4.blkop[0] as int) * 0x100 + a % 0x100 == a;
  }

  // ----- the words -----

  function SetCur(s: State, base: word, n: word): State
    requires Fit(base)
  {
    s.(mem := SetWord(s.mem, base + BLKCUR, n))
  }

  function SetDirty(s: State, base: word, d: word): State
    requires Fit(base)
  {
    s.(mem := SetWord(s.mem, base + BLKDTY, d))
  }

  /** BLK$: no block in the buffer, nothing to write back, and a word behind the buffer that
      ends its interpretation. */
  function Begin(s: State, base: word): State
    requires Fit(base)
  {
    var t := SetCur(SetDirty(s, base, 0), base, NOBLK);
    t.(mem := t.mem[base + 0x400 := 0x5c][base + 0x401 := 0x53][base + 0x402 := 0x20])
  }

  /** BLK! */
  function Store(s: State, base: word): State
    requires Fit(base)
  {
    SetDirty(SendCommand(s, 2, Cur(s, base), base), base, 0)
  }

  function Flush(s: State, base: word): State
    requires Fit(base)
  {
    SetCur(if Dirty(s, base) != 0 then Store(s, base) else s, base, NOBLK)
  }

  /** BLK@ */
  function Load(s: State, base: word, n: word): State
    requires Fit(base)
  {
    if n == Cur(s, base) then s
    else SendCommand(SetCur(Flush(s, base), base, n), 1, n, base)
  }

  /** Any change of the buffer, followed by BLK!! as the discipline demands. */
  function Edit(s: State, base: word, b: Block): State
    requires Fit(base)
  {
    SetDirty(s.(mem := s.mem[..base] + b + s.mem[base + BLKSZ..]), base, 1)
  }

  function Wipe(s: State, base: word): State
    requires Fit(base)
  {
    Edit(s, base, seq(BLKSZ, _ => SPC))
  }

  function Copy(s: State, base: word, src: word, dst: word): State
    requires Fit(base)
  {
    Store(SetCur(Load(Flush(s, base), base, src), base, dst), base)
  }

  // ----- the array of blocks -----

  /** The file reaches past block n. */
  predicate Holds(file: seq<byte>, n: nat) {
    (n + 1) * BLKSZ <= |file|
  }

  /** What the file holds as block n. */
  function FileBlock(file: seq<byte>, n: nat): Block
    requires Holds(file, n)
  {
    file[n * BLKSZ..(n + 1) * BLKSZ]
  }

  /** The abstract store: the blocks, and the number of the one in the buffer, if any. */
  datatype Disk = Disk(blocks: seq<Block>, cur: int)

  /** Block n as a user sees it: the buffer when it holds n, else the file. */
  function View(s: State, base: word, n: nat): Block
    requires Fit(base) && Holds(s.blkfs, n)
  {
    if Cur(s, base) == n then Buffer(s, base) else FileBlock(s.blkfs, n)
  }

  /** The file holds `size` blocks, the port is idle, and a buffer that is not dirty
      equals its block. BLK> is a block of the file or the mark for none. */
  ghost predicate Coherent(s: State, base: word, size: nat) {
    && Fit(base) && size <= NOBLK && |s.blkfs| == size * BLKSZ
    && s.blkop == [0, 0, 0, 0]
    && (Cur(s, base) == NOBLK || Cur(s, base) < size)
    && (Dirty(s, base) != 0 ==> Cur(s, base) < size)
    && (Dirty(s, base) == 0 && Cur(s, base) < size ==> Buffer(s, base) == FileBlock(s.blkfs, Cur(s, base)))
  }

  ghost function Abs(s: State, base: word, size: nat): Disk
    requires Coherent(s, base, size)
  {
    Disk(seq(size, n requires 0 <= n < size => InFile(n, size); View(s, base, n)),
         if Cur(s, base) == NOBLK then -1 else Cur(s, base))
  }

  lemma InFile(n: nat, size: nat)
    requires n < size
    ensures (n + 1) * BLKSZ <= size * BLKSZ
  {
  }

  // ----- effect of each word on the parts -----

  lemma VarsEffect(s: State, base: word, v: word)
    requires Fit(base)
    ensures var t := SetCur(s, base, v);
            Cur(t, base) == v && Dirty(t, base) == Dirty(s, base) && Buffer(t, base) == Buffer(s, base)
    ensures var t := SetDirty(s, base, v);
            Dirty(t, base) == v && Cur(t, base) == Cur(s, base) && Buffer(t, base) == Buffer(s, base)
  {
    SetWordAt(s.mem, base + BLKCUR, v);
    SetWordAt(s.mem, base + BLKDTY, v);
  }

  lemma FwriteEffect(mem: Mem, a: word, file: seq<byte>, n: nat, size: nat)
    requires a + BLKSZ <= MEMSIZE && n < size && |file| == size * BLKSZ
    ensures var f := Fwrite(mem, a, file, n * BLKSZ);
            && |f| == |file| && Holds(f, n) && FileBlock(f, n) == mem[a..a + BLKSZ]
            && forall k: nat :: k < size && k != n ==> Holds(f, k) && FileBlock(f, k) == FileBlock(file, k)
  {
    hide Fwrite;
    var f := Fwrite(mem, a, file, n * BLKSZ);
    InFile(n, size);
    FwriteAt(mem, a, file, n * BLKSZ, 0);
    forall i | 0 <= i < BLKSZ ensures FileBlock(f, n)[i] == mem[a..a + BLKSZ][i] {
      FwriteAt(mem, a, file, n * BLKSZ, n * BLKSZ + i);
    }
    forall k: nat | k < size && k != n ensures Holds(f, k) && FileBlock(f, k) == FileBlock(file, k) {
      InFile(k, size);
      OtherBlock(k, n);
      forall i | 0 <= i < BLKSZ ensures FileBlock(f, k)[i] == FileBlock(file, k)[i] {
        FwriteAt(mem, a, file, n * BLKSZ, k * BLKSZ + i);
      }
    }
  }

  lemma OtherBlock(k: nat, n: nat)
    requires k != n
    ensures (k + 1) * BLKSZ <= n * BLKSZ || (n + 1) * BLKSZ <= k * BLKSZ
  {
  }

  lemma FreadEffect(mem: Mem, base: word, file: seq<byte>, n: nat, size: nat)
    requires Fit(base) && n < size && |file| == size * BLKSZ
    ensures Holds(file, n)
    ensures var m := Fread(mem, base, file, n * BLKSZ);
            && m[base..base + BLKSZ] == FileBlock(file, n)
            && WordAt(m, base + BLKCUR) == WordAt(mem, base + BLKCUR)
            && WordAt(m, base + BLKDTY) == WordAt(mem, base + BLKDTY)
  {
    InFile(n, size);
    var m := Fread(mem, base, file, n * BLKSZ);
    assert m == mem[..base] + FileBlock(file, n) + mem[base + BLKSZ..];
  }

  /** BLK! makes the file agree with the buffer and changes nothing a user can see. */
  lemma StoreRefines(s: State, base: word, size: nat)
    requires Coherent(s, base, size) && Cur(s, base) < size
    ensures var t := Store(s, base);
            && Coherent(t, base, size) && Abs(t, base, size) == Abs(s, base, size)
            && Dirty(t, base) == 0 && Cur(t, base) == Cur(s, base)
            && (forall n: nat :: n < size ==> FileBlock(t.blkfs, n) == Abs(s, base, size).blocks[n])
  {
    hide Fwrite, FileBlock, SendCommand;
    var n := Cur(s, base);
    Protocol(s, 2, n, base);
    FwriteEffect(s.mem, base, s.blkfs, n, size);
    VarsEffect(s.(blkfs := Fwrite(s.mem, base, s.blkfs, n * BLKSZ)), base, 0);
    var t := Store(s, base);
    SameViews(s, t, base, size);
  }

  lemma SameViews(s: State, t: State, base: word, size: nat)
    requires Coherent(s, base, size) && Coherent(t, base, size)
    requires Cur(s, base) == Cur(t, base)
    requires forall n: nat :: n < size ==>
               Holds(s.blkfs, n) && Holds(t.blkfs, n) && View(s, base, n) == View(t, base, n)
    ensures Abs(s, base, size) == Abs(t, base, size)
  {
    assert Abs(s, base, size).blocks == Abs(t, base, size).blocks;
  }

  /** FLUSH leaves the file equal to what a user saw, and no block in the buffer. */
  lemma FlushRefines(s: State, base: word, size: nat)
    requires Coherent(s, base, size)
    ensures var t := Flush(s, base);
            && Coherent(t, base, size)
            && Abs(t, base, size) == Abs(s, base, size).(cur := -1)
            && Dirty(t, base) == 0 && Cur(t, base) == NOBLK && Buffer(t, base) == Buffer(s, base)
            && (forall n: nat :: n < size ==> FileBlock(t.blkfs, n) == Abs(s, base, size).blocks[n])
  {
    hide FileBlock, Store;
    var u := if Dirty(s, base) != 0 then Store(s, base) else s;
    if Dirty(s, base) != 0 {
      StoreRefines(s, base, size);
      StoreKeepsBuffer(s, base, size);
    }
    VarsEffect(u, base, NOBLK);
    var t := Flush(s, base);
    forall n: nat | n < size ensures Holds(t.blkfs, n) && View(t, base, n) == FileBlock(t.blkfs, n)
      ensures FileBlock(t.blkfs, n) == Abs(s, base, size).blocks[n]
    {
      InFile(n, size);
    }
    assert Abs(t, base, size).blocks == Abs(s, base, size).blocks;
  }

  lemma StoreKeepsBuffer(s: State, base: word, size: nat)
    requires Coherent(s, base, size) && Cur(s, base) < size
    ensures Buffer(Store(s, base), base) == Buffer(s, base)
  {
    hide Fwrite, FileBlock, SendCommand;
    Protocol(s, 2, Cur(s, base), base);
    VarsEffect(s.(blkfs := Fwrite(s.mem, base, s.blkfs, Cur(s, base) * BLKSZ)), base, 0);
  }

  /** BLK@ brings block n into the buffer, writing the old one back first if need be;
      no block changes for a user. */
  lemma LoadRefines(s: State, base: word, size: nat, n: word)
    requires Coherent(s, base, size) && n < size
    ensures var t := Load(s, base, n);
            && Coherent(t, base, size)
            && Abs(t, base, size) == Abs(s, base, size).(cur := n)
            && Cur(t, base) == n && Buffer(t, base) == Abs(s, base, size).blocks[n]
  {
    hide FileBlock, Flush, SendCommand, Fread;
    if n != Cur(s, base) {
      FlushRefines(s, base, size);
      var u := Flush(s, base);
      VarsEffect(u, base, n);
      var v := SetCur(u, base, n);
      Protocol(v, 1, n, base);
      FreadEffect(v.mem, base, v.blkfs, n, size);
      var t := Load(s, base, n);
      forall k: nat | k < size ensures Holds(t.blkfs, k) && View(t, base, k) == FileBlock(t.blkfs, k) {
        InFile(k, size);
      }
      assert Abs(t, base, size).blocks == Abs(s, base, size).blocks;
    }
  }

  /** A change of the buffer followed by BLK!! changes the current block and no other. */
  lemma EditRefines(s: State, base: word, size: nat, b: Block)
    requires Coherent(s, base, size) && Cur(s, base) < size
    ensures var t := Edit(s, base, b);
            var a := Abs(s, base, size);
            && Coherent(t, base, size) && Buffer(t, base) == b && Dirty(t, base) == 1
            && Abs(t, base, size) == a.(blocks := a.blocks[a.cur := b])
  {
    hide FileBlock;
    var n := Cur(s, base);
    var u := s.(mem := s.mem[..base] + b + s.mem[base + BLKSZ..]);
    assert Cur(u, base) == n && Buffer(u, base) == b;
    VarsEffect(u, base, 1);
    var t := Edit(s, base, b);
    forall k: nat | k < size ensures Holds(t.blkfs, k) && (k != n ==> View(t, base, k) == View(s, base, k)) {
      InFile(k, size);
    }
    assert Abs(t, base, size).blocks == Abs(s, base, size).blocks[n := b];
  }

  /** COPY makes block dst equal to what block src was, on disk too, and leaves dst in
      the buffer. */
  lemma CopyRefines(s: State, base: word, size: nat, src: word, dst: word)
    requires Coherent(s, base, size) && src < size && dst < size
    ensures var t := Copy(s, base, src, dst);
            var a := Abs(s, base, size);
            && Coherent(t, base, size) && Dirty(t, base) == 0
            && Abs(t, base, size) == Disk(a.blocks[dst := a.blocks[src]], dst)
            && FileBlock(t.blkfs, dst) == a.blocks[src]
  {
    hide FileBlock, Flush, SendCommand, Fread, Fwrite, Load;
    FlushRefines(s, base, size);
    var u := Flush(s, base);
    LoadRefines(u, base, size, src);
    LoadClean(u, base, size, src);
    var v := Load(u, base, src);
    VarsEffect(v, base, dst);
    var w := SetCur(v, base, dst);
    Protocol(w, 2, dst, base);
    FwriteEffect(w.mem, base, w.blkfs, dst, size);
    VarsEffect(w.(blkfs := Fwrite(w.mem, base, w.blkfs, dst * BLKSZ)), base, 0);
    var t := Copy(s, base, src, dst);
    var a := Abs(s, base, size);
    forall k: nat | k < size
      ensures Holds(t.blkfs, k) && View(t, base, k) == a.blocks[dst := a.blocks[src]][k]
    {
      InFile(k, size);
    }
    assert Abs(t, base, size).blocks == a.blocks[dst := a.blocks[src]];
  }

  lemma LoadClean(s: State, base: word, size: nat, n: word)
    requires Coherent(s, base, size) && Dirty(s, base) == 0 && n < size
    ensures Dirty(Load(s, base, n), base) == 0
    ensures Coherent(Load(s, base, n), base, size)
    ensures forall k: nat :: k < size ==>
            Holds(Load(s, base, n).blkfs, k) &&
            FileBlock(Load(s, base, n).blkfs, k) == Abs(s, base, size).blocks[k]
  {
    LoadRefines(s, base, size, n);
    hide FileBlock, Flush, SendCommand, Fread;
    if n != Cur(s, base) {
      FlushRefines(s, base, size);
      var u := Flush(s, base);
      VarsEffect(u, base, n);
      var v := SetCur(u, base, n);
      Protocol(v, 1, n, base);
      FreadEffect(v.mem, base, v.blkfs, n, size);
    }
    forall k: nat | k < size ensures Holds(s.blkfs, k) {
      InFile(k, size);
    }
  }

  // ----- whole sessions -----

  datatype Op = OLoad(n: word) | OStore | OFlush | OEdit(b: Block) | OWipe | OCopy(src: word, dst: word)

  /** What a user is asked: block numbers in range, and a block in the buffer for the
      words that act on it. */
  predicate Allowed(op: Op, a: Disk) {
    match op
    case OLoad(n) => n < |a.blocks|
    case OStore | OWipe => a.cur >= 0
    case OEdit(_) => a.cur >= 0
    case OFlush => true
    case OCopy(src, dst) => src < |a.blocks| && dst < |a.blocks|
  }

  /** The same words on a plain array of blocks. */
  function AbsStep(op: Op, a: Disk): Disk
    requires Allowed(op, a) && a.cur < |a.blocks|
  {
    match op
    case OLoad(n) => a.(cur := n)
    case OStore => a
    case OFlush => a.(cur := -1)
    case OEdit(b) => a.(blocks := a.blocks[a.cur := b])
    case OWipe => a.(blocks := a.blocks[a.cur := seq(1024, _ => 32)])
    case OCopy(src, dst) => Disk(a.blocks[dst := a.blocks[src]], dst)
  }

  function Step(op: Op, s: State, base: word): State
    requires Fit(base)
  {
    match op
    case OLoad(n) => Load(s, base, n)
    case OStore => Store(s, base)
    case OFlush => Flush(s, base)
    case OEdit(b) => Edit(s, base, b)
    case OWipe => Wipe(s, base)
    case OCopy(src, dst) => Copy(s, base, src, dst)
  }

  function RunOps(ops: seq<Op>, s: State, base: word): State
    requires Fit(base)
  {
    if ops == [] then s else RunOps(ops[1..], Step(ops[0], s, base), base)
  }

  predicate AllAllowed(ops: seq<Op>, a: Disk) {
    ops == [] || (a.cur < |a.blocks| && Allowed(ops[0], a) && AllAllowed(ops[1..], AbsStep(ops[0], a)))
  }

  function AbsRun(ops: seq<Op>, a: Disk): Disk
    requires AllAllowed(ops, a)
  {
    if ops == [] then a else AbsRun(ops[1..], AbsStep(ops[0], a))
  }

  /** Whatever a session does within its bounds, the cached disk behaves as an array of
      blocks, and a final FLUSH makes the file equal to that array. */
  lemma {:induction false} CacheRefinesArray(ops: seq<Op>, s: State, base: word, size: nat)
    requires Coherent(s, base, size) && AllAllowed(ops, Abs(s, base, size))
    ensures var t := RunOps(ops, s, base);
            var a := AbsRun(ops, Abs(s, base, size));
            && Coherent(t, base, size) && Abs(t, base, size) == a
            && |a.blocks| == size
            && var f := Flush(t, base).blkfs;
               |f| == size * BLKSZ && forall n: nat :: n < size ==> Holds(f, n) && FileBlock(f, n) == a.blocks[n]
    decreases |ops|
  {
    hide Load, Flush, Edit, Copy, Store, Abs;
    SizeOfAbs(s, base, size);
    if ops == [] {
      FlushRefines(s, base, size);
      forall n: nat | n < size ensures Holds(Flush(s, base).blkfs, n) { InFile(n, size); }
    } else {
      match ops[0] {
        case OLoad(n) => LoadRefines(s, base, size, n);
        case OStore => StoreRefines(s, base, size);
        case OFlush => FlushRefines(s, base, size);
        case OEdit(b) => EditRefines(s, base, size, b);
        case OWipe => EditRefines(s, base, size, seq(BLKSZ, _ => SPC));
        case OCopy(src, dst) => CopyRefines(s, base, size, src, dst);
      }
      CacheRefinesArray(ops[1..], Step(ops[0], s, base), base, size);
    }
  }

  /** What the file holds, block by block. */
  function Blocks(file: seq<byte>, size: nat): (bs: seq<Block>)
    requires |file| == size * BLKSZ
    ensures |bs| == size
  {
    seq(size, n requires 0 <= n < size => InFile(n, size); FileBlock(file, n))
  }

  /** BLK$ makes any buffer coherent with any file of whole blocks, and shows what the file
      holds. */
  lemma BeginRefines(s: State, base: word, size: nat)
    requires Fit(base) && size <= NOBLK && |s.blkfs| == size * BLKSZ && s.blkop == [0, 0, 0, 0]
    ensures var t := Begin(s, base);
            && Coherent(t, base, size) && Abs(t, base, size) == Disk(Blocks(s.blkfs, size), -1)
            && Dirty(t, base) == 0 && Cur(t, base) == 0xffff && t.blkfs == s.blkfs
            && t.mem[base + 0x400..base + 0x403] == [0x5c, 0x53, 0x20] && Buffer(t, base) == Buffer(s, base)
  {
    hide FileBlock;
    VarsEffect(s, base, 0);
    var u := SetDirty(s, base, 0);
    VarsEffect(u, base, NOBLK);
    var v := SetCur(u, base, NOBLK);
    hide SetCur, SetDirty;
    var t := Begin(s, base);
    assert Cur(t, base) == Cur(v, base) && Dirty(t, base) == Dirty(v, base) && Buffer(t, base) == Buffer(v, base);
    assert t.blkfs == s.blkfs by { VarsPlace(s, base, 0); VarsPlace(u, base, NOBLK); }
    forall n: nat | n < size ensures Holds(t.blkfs, n) { InFile(n, size); }
    assert Abs(t, base, size).blocks == Blocks(s.blkfs, size);
  }

  /** From BLK$ on: any session within bounds, then FLUSH. The file holds what the array of
      blocks that it held before has become. */
  lemma SessionFromStart(ops: seq<Op>, s: State, base: word, size: nat)
    requires Fit(base) && size <= NOBLK && |s.blkfs| == size * BLKSZ && s.blkop == [0, 0, 0, 0]
    requires AllAllowed(ops, Disk(Blocks(s.blkfs, size), -1))
    ensures var f := Flush(RunOps(ops, Begin(s, base), base), base).blkfs;
            |f| == size * BLKSZ && Blocks(f, size) == AbsRun(ops, Disk(Blocks(s.blkfs, size), -1)).blocks
  {
    hide Begin, RunOps, Flush, AllAllowed, AbsRun, Coherent, Abs;
    BeginRefines(s, base, size);
    CacheRefinesArray(ops, Begin(s, base), base, size);
    var f := Flush(RunOps(ops, Begin(s, base), base), base).blkfs;
    var a := AbsRun(ops, Disk(Blocks(s.blkfs, size), -1));
    forall n | 0 <= n < size ensures Blocks(f, size)[n] == a.blocks[n] { InFile(n, size); }
  }

  /** Nothing changes but the buffer, the two variables and the file. */
  ghost predicate Kept(s: State, t: State, base: word) {
    && t == s.(mem := t.mem, blkfs := t.blkfs) && t.blkop == [0, 0, 0, 0]
    && forall x: word :: !(base <= x < base + 1024) && !(base + 0x403 <= x < base + 0x407) ==> t.mem[x] == s.mem[x]
  }

  /** The variables lie behind the buffer, low byte first. */
  lemma VarsPlace(s: State, base: word, v: word)
    requires Fit(base)
    ensures SetCur(s, base, v) == s.(mem := s.mem[base + 0x403 := v % 0x100][base + 0x404 := v / 0x100])
    ensures SetDirty(s, base, v) == s.(mem := s.mem[base + 0x405 := v % 0x100][base + 0x406 := v / 0x100])
  {
  }

  lemma VarsKeep(s: State, base: word, v: word)
    requires Fit(base) && s.blkop == [0, 0, 0, 0]
    ensures Kept(s, SetCur(s, base, v), base) && Kept(s, SetDirty(s, base, v), base)
  {
    VarsPlace(s, base, v);
    hide SetCur, SetDirty;
  }

  lemma KeptTwice(s: State, t: State, u: State, base: word)
    requires Kept(s, t, base) && Kept(t, u, base)
    ensures Kept(s, u, base)
  {
  }

  lemma TransferKeeps(s: State, rw: byte, n: word, base: word)
    requires Fit(base) && s.blkop == [0, 0, 0, 0] && (rw == 1 || rw == 2)
    ensures Kept(s, SendCommand(s, rw, n, base), base)
  {
    hide Fread, Fwrite, SendCommand;
    Protocol(s, rw, n, base);
    forall x: word | !(base <= x < base + 1024) ensures Fread(s.mem, base, s.blkfs, n * BLKSZ)[x] == s.mem[x] {
      FreadAt(s.mem, base, s.blkfs, n * BLKSZ, x);
    }
  }

  lemma StoreFrame(s: State, base: word)
    requires Fit(base) && s.blkop == [0, 0, 0, 0]
    ensures Kept(s, Store(s, base), base)
  {
    hide Kept, SendCommand, SetDirty, Cur;
    var t := SendCommand(s, 2, Cur(s, base), base);
    TransferKeeps(s, 2, Cur(s, base), base);
    KeptIdle(s, t, base);
    VarsKeep(t, base, 0);
    KeptTwice(s, t, SetDirty(t, base, 0), base);
  }

  lemma KeptIdle(s: State, t: State, base: word)
    requires Kept(s, t, base)
    ensures t.blkop == [0, 0, 0, 0]
  {
  }

  lemma FlushFrame(s: State, base: word)
    requires Fit(base) && s.blkop == [0, 0, 0, 0]
    ensures Kept(s, Flush(s, base), base)
  {
    assert Kept(s, s, base);
    StoreFrame(s, base);
    hide Kept, Store, SetCur, Dirty;
    var t := if Dirty(s, base) != 0 then Store(s, base) else s;
    KeptIdle(s, t, base);
    VarsKeep(t, base, NOBLK);
    KeptTwice(s, t, Flush(s, base), base);
  }

  lemma LoadFrame(s: State, base: word, n: word)
    requires Fit(base) && s.blkop == [0, 0, 0, 0]
    ensures Kept(s, Load(s, base, n), base)
  {
    assert Kept(s, s, base);
    hide Kept, Flush, SetCur, SendCommand, Cur;
    FlushFrame(s, base);
    var t := Flush(s, base);
    KeptIdle(s, t, base);
    VarsKeep(t, base, n);
    var u := SetCur(t, base, n);
    KeptTwice(s, t, u, base);
    KeptIdle(s, u, base);
    TransferKeeps(u, 1, n, base);
    KeptTwice(s, u, SendCommand(u, 1, n, base), base);
  }

  lemma EditFrame(s: State, base: word, b: Block)
    requires Fit(base) && s.blkop == [0, 0, 0, 0]
    ensures Kept(s, Edit(s, base, b), base)
  {
    var t := s.(mem := s.mem[..base] + b + s.mem[base + BLKSZ..]);
    assert Kept(s, t, base);
    hide Kept, SetDirty;
    VarsKeep(t, base, 1);
    KeptTwice(s, t, SetDirty(t, base, 1), base);
  }

  /** No word touches memory outside the subsystem's own, or any register. */
  lemma StepKeeps(op: Op, s: State, base: word)
    requires Fit(base) && s.blkop == [0, 0, 0, 0]
    ensures Kept(s, Step(op, s, base), base)
  {
    hide Kept, Load, Store, Flush, Edit, SetCur;
    match op
    case OLoad(n) => LoadFrame(s, base, n);
    case OStore => StoreFrame(s, base);
    case OFlush => FlushFrame(s, base);
    case OEdit(b) => EditFrame(s, base, b);
    case OWipe => EditFrame(s, base, seq(BLKSZ, _ => SPC));
    case OCopy(src, dst) =>
      FlushFrame(s, base);
      var t := Flush(s, base);
      KeptIdle(s, t, base);
      LoadFrame(t, base, src);
      var u := Load(t, base, src);
      KeptTwice(s, t, u, base);
      KeptIdle(s, u, base);
      VarsKeep(u, base, dst);
      var v := SetCur(u, base, dst);
      KeptTwice(s, u, v, base);
      KeptIdle(s, v, base);
      StoreFrame(v, base);
      KeptTwice(s, v, Store(v, base), base);
  }

  lemma SizeOfAbs(s: State, base: word, size: nat)
    requires Coherent(s, base, size)
    ensures |Abs(s, base, size).blocks| == size
    ensures Abs(s, base, size).cur >= 0 ==> Cur(s, base) < size
  {
  }

  // ----- block $ffff -----

  /** After FLUSH, BLK@ delivers block n whatever the buffer holds, for every n except
      $ffff: that number is the mark for an empty buffer, so BLK@ takes it for a hit and
      does not read. */
  lemma LoadDelivers(base: word, n: word)
    requires Fit(base)
    ensures n != NOBLK <==>
            forall s: State :: s.blkop == [0, 0, 0, 0] && Cur(s, base) == NOBLK && Dirty(s, base) == 0
                        && Holds(s.blkfs, n)
                        ==> Buffer(Load(s, base, n), base) == FileBlock(s.blkfs, n)
  {
    if n != NOBLK {
      forall s: State | s.blkop == [0, 0, 0, 0] && Cur(s, base) == NOBLK && Dirty(s, base) == 0
                        && Holds(s.blkfs, n)
        ensures Buffer(Load(s, base, n), base) == FileBlock(s.blkfs, n)
      {
        LoadAfterFlush(s, base, n);
      }
    } else {
      var s := StaleState(base);
      assert FileBlock(s.blkfs, NOBLK)[0] == 1;
      assert Buffer(Load(s, base, n), base)[0] == 0;
    }
  }

  lemma LoadAfterFlush(s: State, base: word, n: word)
    requires Fit(base) && n != NOBLK
    requires s.blkop == [0, 0, 0, 0] && Cur(s, base) == NOBLK && Dirty(s, base) == 0
    requires Holds(s.blkfs, n)
    ensures Buffer(Load(s, base, n), base) == FileBlock(s.blkfs, n)
  {
    hide Fread, SendCommand;
    VarsEffect(s, base, NOBLK);
    var u := SetCur(SetCur(s, base, NOBLK), base, n);
    Protocol(u, 1, n, base);
    FreadWhole(u.mem, base, s.blkfs, n);
  }

  lemma FreadWhole(mem: Mem, a: word, file: seq<byte>, n: nat)
    requires a + BLKSZ <= MEMSIZE && Holds(file, n)
    ensures Fread(mem, a, file, n * BLKSZ)[a..a + BLKSZ] == FileBlock(file, n)
  {
    assert Fread(mem, a, file, n * BLKSZ) == mem[..a] + FileBlock(file, n) + mem[a + BLKSZ..];
  }

  /** A machine after FLUSH whose buffer differs from block $ffff of its file. */
  ghost function StaleState(base: word): (s: State)
    requires Fit(base)
    ensures s.blkop == [0, 0, 0, 0] && Cur(s, base) == NOBLK && Dirty(s, base) == 0
    ensures Holds(s.blkfs, NOBLK) && s.blkfs[NOBLK * BLKSZ] == 1 && s.mem[base] == 0
  {
    var zero: Mem := seq(MEMSIZE, _ => 0);
    var mem := SetWord(zero, base + BLKCUR, NOBLK);
    State(mem, 0, 0, 0, 0, 0, 0, true, [0, 0, 0, 0], seq((NOBLK + 1) * BLKSZ, _ => 1), false)
  }
}
