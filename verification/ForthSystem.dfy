/** The compiling and dictionary words of blk.fs in their own form: words that update
    memory, HERE, CURRENT and the data stack, and loops that search and copy. */
module ForthSystem {
  import opened Words
  import Copying
  import F = Forth
  import C = CompilerSpec
  import D = Dictionary
  import Definitions

  class System {
    const mem: array<byte>
    var here: word
    var current: word
    var ctl: seq<word>
    var ok: bool

    ghost predicate Valid() {
      mem.Length == MEMSIZE
    }

    ghost function State(): C.CState
      requires Valid()
      reads this, mem
    {
      C.CState(mem[..], here, current, ctl, ok)
    }

    constructor (image: Mem, h: word, c: word)
      ensures Valid() && fresh(mem)
      ensures State() == C.CState(image, h, c, [], true)
    {
      mem := new byte[MEMSIZE](i requires 0 <= i < MEMSIZE => image[i]);
      here, current, ctl, ok := h, c, [], true;
      new;
      assert mem[..] == image;
    }

    method Comma(w: word)
      requires Valid()
      modifies this, mem
      ensures State() == C.Comma(old(State()), w)
    {
      if here != 0xffff {
        mem[here] := w % 0x100;
        mem[here + 1] := w / 0x100;
      }
      here := W(here + 2);
    }

    method CComma(b: byte)
      requires Valid()
      modifies this, mem
      ensures State() == C.CComma(old(State()), b)
    {
      mem[here] := b;
      here := W(here + 1);
    }

    method Allot(n: word)
      requires Valid()
      modifies `here
      ensures State() == C.Allot(old(State()), n)
    {
      here := W(here + n);
    }

    method LitN(l: F.Labels, n: word)
      requires Valid()
      modifies this, mem
      ensures State() == C.LitN(old(State()), l, n)
    {
      if n / 0x100 != 0 {
        Comma(l.lit16);
        Comma(n);
      } else {
        Comma(l.lit8);
        CComma(n % 0x100);
      }
    }

    method IfWord(l: F.Labels)
      requires Valid()
      modifies this, mem
      ensures State() == C.IfWord(old(State()), l)
    {
      Comma(l.cbr);
      ctl := ctl + [here];
      Allot(1);
    }

    method ThenWord()
      requires Valid()
      modifies this, mem
      ensures State() == C.ThenWord(old(State()))
    {
      if ctl == [] {
        ok := false;
        return;
      }
      var a := F.Last(ctl);
      var off := W(here - a);
      if C.BranchOk(off) {
        ctl := F.Init(ctl);
        mem[a] := off % 0x100;
      } else {
        ok := false;
      }
    }

    method ElseWord(l: F.Labels)
      requires Valid()
      modifies this, mem
      ensures State() == C.ElseWord(old(State()), l)
    {
      Comma(l.br);
      Allot(1);
      ThenWord();
      if ok { ctl := ctl + [W(here - 1)]; }
    }

    method BeginWord()
      requires Valid()
      modifies `ctl
      ensures State() == C.BeginWord(old(State()))
    {
      ctl := ctl + [here];
    }

    method LoopWord(branch: word)
      requires Valid()
      modifies this, mem
      ensures State() == C.LoopWord(old(State()), branch)
    {
      Comma(branch);
      if ctl == [] {
        ok := false;
        return;
      }
      var off := W(F.Last(ctl) - here);
      if C.BranchOk(off) {
        ctl := F.Init(ctl);
        CComma(off % 0x100);
      } else {
        ok := false;
      }
    }

    method CompileToken(t: C.Token, l: F.Labels)
      requires Valid()
      modifies this, mem
      ensures State() == C.CompileToken(t, old(State()), l)
    {
      hide C.LitN, C.Comma, C.IfWord, C.ElseWord, C.ThenWord, C.BeginWord, C.LoopWord;
      match t {
        case TLit(n) => LitN(l, n);
        case TCell(w) => Comma(w);
        case TIf => IfWord(l);
        case TElse => ElseWord(l);
        case TThen => ThenWord();
        case TBegin => BeginWord();
        case TUntil => LoopWord(l.cbr);
        case TAgain => LoopWord(l.br);
        case TNext => LoopWord(l.nxt);
      }
    }

    /** The loop of XTCOMP, up to the closing semicolon. */
    method CompileTokens(ts: seq<C.Token>, l: F.Labels)
      requires Valid()
      modifies this, mem
      ensures State() == C.Compile(ts, old(State()), l)
    {
      hide C.CompileToken;
      var i := 0;
      while i < |ts| && ok
        invariant 0 <= i <= |ts|
        invariant C.Compile(ts[i..], State(), l) == C.Compile(ts, old(State()), l)
      {
        assert ts[i..][0] == ts[i] && ts[i..][1..] == ts[i + 1..];
        CompileToken(ts[i], l);
        i := i + 1;
      }
      assert i == |ts| ==> ts[i..] == [];
    }

    /** MOVE, : copy u bytes to HERE, one at a time, addresses modulo 2^16. */
    method MoveIn(src: word, u: word)
      requires Valid()
      modifies `here, mem
      ensures State() == old(State()).(mem := Copying.Copy(old(mem[..]), src, old(here), u), here := W(old(here) + u))
    {
      var h := here;
      here := W(here + u);
      var i := 0;
      while i < u
        invariant i <= u && here == W(h + u)
        invariant mem[..] == Copying.Copy(old(mem[..]), src, h, i)
      {
        mem[W(h + i)] := mem[W(src + i)];
        i := i + 1;
      }
    }

    /** CODE, given where WORD left the name. */
    method Header(src: word, len: byte)
      requires Valid()
      requires len <= D.MAXNAME && here + len + 3 < MEMSIZE && src + len <= MEMSIZE
      requires here <= src || src + len <= here
      modifies this, mem
      ensures State() == D.Header(old(State()), old(mem[src..src + len]))
    {
      hide D.MoveIn, C.Comma, C.CComma, Copying.Copy;
      D.CopyIsMoveIn(State(), src, len);
      MoveIn(src, len);
      Comma(current);
      CComma(len);
      current := here;
    }

    /** IMMEDIATE: `$80 OR` on the length byte of the newest word. */
    method Immediate()
      requires Valid()
      modifies mem
      ensures State() == D.SetImmediate(old(State()))
    {
      var a := W(current - 1);
      if mem[a] < 0x80 { mem[a] := mem[a] + 0x80; }
    }

    /** `: name ... ;` */
    method Colon(l: F.Labels, src: word, len: byte, ts: seq<C.Token>)
      requires Valid()
      requires len <= D.MAXNAME && here + len + 3 < MEMSIZE && src + len <= MEMSIZE
      requires here <= src || src + len <= here
      modifies this, mem
      ensures State() == Definitions.Colon(old(State()), l, old(mem[src..src + len]), ts)
    {
      hide C.Compile, D.Header, C.Comma, C.CComma;
      Header(src, len);
      CComma(10);
      Comma(l.xt);
      CompileTokens(ts, l);
      if ok { Comma(l.exit); }
    }

    /** `[]=` : are u bytes at a and at b the same? */
    method BytesEqual(a: nat, b: nat, u: nat) returns (same: bool)
      requires Valid() && a + u <= MEMSIZE && b + u <= MEMSIZE
      ensures same == (mem[a..a + u] == mem[b..b + u])
    {
      var i := 0;
      while i < u
        invariant i <= u
        invariant mem[a..a + i] == mem[b..b + i]
      {
        if mem[a + i] != mem[b + i] {
          assert mem[a..a + u][i] != mem[b..b + u][i];
          return false;
        }
        i := i + 1;
      }
      return true;
    }

    method Cell(a: word) returns (v: word)
      requires Valid()
      ensures v == WordAt(mem[..], a)
    {
      if a == 0xffff { return 0; }
      v := (mem[a] as int) + 0x100 * (mem[a + 1] as int);
    }

    /** FIND: follow the links from CURRENT and answer the newest word with this name,
        whatever its immediate bit; zero when there is none. */
    method Find(sa: nat, sl: nat, ghost es: seq<D.Entry>) returns (w: word)
      requires Valid() && sa + sl <= MEMSIZE
      requires es != [] && D.Chain(mem[..], current, es)
      ensures var r := D.Lookup(es, mem[sa..sa + sl]);
              if r.Some? then w == r.value.addr > 0 else w == 0
    {
      hide D.Chain, D.Lookup;
      ghost var name := mem[sa..sa + sl];
      ghost var rest := es;
      w := current;
      while true
        invariant rest != [] && D.Chain(mem[..], w, rest)
        invariant D.Lookup(rest, name) == D.Lookup(es, name)
        decreases w
      {
        D.ChainStep(mem[..], w, rest, name);
        if mem[w - 1] % 0x80 == sl {
          assert mem[..][w - 3 - sl..w - 3] == mem[w - 3 - sl..w - 3];
          var same := BytesEqual(w - 3 - sl, sa, sl);
          if same { return; }
        }
        w := Cell(w - 3);
        rest := rest[1..];
        if w == 0 {
          D.ChainOut(mem[..], rest, name);
          return;
        }
      }
    }

    /** FORGET, given the word that `'` found. */
    method Forget(w: word)
      requires Valid()
      modifies `here, `current
      ensures State() == D.ForgetAt(old(State()), w)
    {
      var len := mem[W(w - 1)] % 0x80;
      here := W(w - (len + 3));
      current := Cell(W(w - 3));
    }
  }
}
