/** The linked dictionary of blk.fs: what CODE lays down, what FIND and FORGET see. */
module Dictionary {
  import opened Words
  import Copying
  import opened Forth
  import opened CompilerSpec

  /** Longest name the 7-bit length can hold; the input line is shorter still. */
  const MAXNAME: nat := 127

  datatype Entry = Entry(addr: word, name: seq<byte>)

  /** The bytes before an entry's address: name, link to the previous entry, length and
      immediate bit. Earlier entries lie wholly below later ones. */
  predicate EntryAt(m: Mem, e: Entry, prev: word) {
    && |e.name| <= MAXNAME
    && prev + |e.name| + 3 <= e.addr
    && m[e.addr - 1] % 0x80 == |e.name|
    && WordAt(m, e.addr - 3) == prev
    && m[e.addr - 3 - |e.name|..e.addr - 3] == e.name
  }

  function Addr(es: seq<Entry>): word {
    if es == [] then 0 else es[0].addr
  }

  /** The entries reached from w by following links, most recent first. */
  predicate Chain(m: Mem, w: word, es: seq<Entry>) {
    && w == Addr(es)
    && (es != [] ==> EntryAt(m, es[0], Addr(es[1..])) && Chain(m, Addr(es[1..]), es[1..]))
  }

  /** The most recent entry with this name. */
  function Lookup(es: seq<Entry>, name: seq<byte>): (r: Option<Entry>)
    ensures r.Some? ==> r.value in es && r.value.name == name
    ensures r.None? ==> forall e :: e in es ==> e.name != name
  {
    if es == [] then None
    else if es[0].name == name then Some(es[0])
    else Lookup(es[1..], name)
  }

  /** The answer is the first match in the chain: every newer entry has another name. */
  lemma {:induction false} LookupNewest(es: seq<Entry>, name: seq<byte>, i: nat)
    requires i < |es| && es[i].name == name && forall j :: 0 <= j < i ==> es[j].name != name
    ensures Lookup(es, name) == Some(es[i])
    decreases i
  {
    if i > 0 {
      assert es[1..][i - 1] == es[i];
      LookupNewest(es[1..], name, i - 1);
    }
  }

  /** One step along the links. */
  lemma ChainStep(m: Mem, w: word, es: seq<Entry>, name: seq<byte>)
    requires es != [] && Chain(m, w, es)
    ensures var e, prev := es[0], Addr(es[1..]);
            && w == e.addr && |e.name| + 3 <= w && prev < w && |e.name| <= MAXNAME
            && m[w - 1] % 0x80 == |e.name| && m[w - 3 - |e.name|..w - 3] == e.name
            && WordAt(m, w - 3) == prev && Chain(m, prev, es[1..])
    ensures Lookup(es, name) == if es[0].name == name then Some(es[0]) else Lookup(es[1..], name)
  {
  }

  /** At the end of the links nothing is left to find. */
  lemma ChainOut(m: Mem, es: seq<Entry>, name: seq<byte>)
    requires Chain(m, 0, es)
    ensures es == [] && Lookup(es, name) == None
  {
  }

  /** What lies at or above the newest entry's address does not matter to the chain. */
  lemma {:induction false} ChainBelow(m: Mem, n: Mem, w: word, es: seq<Entry>, top: nat)
    requires Chain(m, w, es) && w <= top
    requires forall i: word :: i < top ==> m[i] == n[i]
    ensures Chain(n, w, es)
    decreases es
  {
    if es != [] {
      var e := es[0];
      assert m[e.addr - 3 - |e.name|..e.addr - 3] == n[e.addr - 3 - |e.name|..e.addr - 3];
      ChainBelow(m, n, Addr(es[1..]), es[1..], top);
    }
  }

  /** Setting or clearing an immediate bit changes no entry. */
  lemma {:induction false} ChainImmediate(m: Mem, w: word, es: seq<Entry>, i: nat, b: byte)
    requires Chain(m, w, es) && i < |es| && es[i].addr > 0
    requires b % 0x80 == m[es[i].addr - 1] % 0x80
    ensures Chain(m[es[i].addr - 1 := b], w, es)
    decreases es
  {
    var a: nat := es[i].addr - 1;
    ChainAddr(m, w, es, i);
    var e := es[0];
    EntryImmediate(m, e, Addr(es[1..]), a, b);
    hide EntryAt;
    if i == 0 {
      ChainBelow(m, m[a := b], Addr(es[1..]), es[1..], a);
    } else {
      assert es[1..][i - 1] == es[i];
      ChainImmediate(m, Addr(es[1..]), es[1..], i - 1, b);
    }
  }

  /** An immediate bit is no part of an entry, and what lies below its header neither. */
  lemma EntryImmediate(m: Mem, e: Entry, prev: word, a: nat, b: byte)
    requires EntryAt(m, e, prev) && a < MEMSIZE && b % 0x80 == m[a] % 0x80
    requires a == e.addr - 1 || a + |e.name| + 3 < e.addr
    ensures EntryAt(m[a := b], e, prev) && prev < e.addr
  {
    var n := m[a := b];
    assert m[e.addr - 3 - |e.name|..e.addr - 3] == n[e.addr - 3 - |e.name|..e.addr - 3];
  }

  /** Older entries end below the header of every newer one. */
  lemma {:induction false} ChainAddr(m: Mem, w: word, es: seq<Entry>, i: nat)
    requires Chain(m, w, es) && i < |es|
    ensures es[i].addr <= w && (i > 0 ==> es[i].addr + |es[0].name| + 3 <= w)
    decreases es
  {
    if i > 0 {
      assert es[1..][i - 1] == es[i];
      ChainAddr(m, Addr(es[1..]), es[1..], i - 1);
    }
  }

  // ----- CODE -----

  /** MOVE, : append bytes. */
  function MoveIn(s: CState, name: seq<byte>): CState
    requires s.here + |name| <= MEMSIZE
  {
    s.(mem := s.mem[..s.here] + name + s.mem[s.here + |name|..], here := W(s.here + |name|))
  }

  /** Copying forward appends a range as it was, unless it starts below HERE and reaches
      past it. */
  lemma CopyIsMoveIn(s: CState, src: word, u: word)
    requires src + u <= MEMSIZE && s.here + u <= MEMSIZE && (s.here <= src || src + u <= s.here)
    ensures MoveIn(s, s.mem[src..src + u])
         == s.(mem := Copying.Copy(s.mem, src, s.here, u), here := W(s.here + u))
  {
    hide Copying.Copy, Copying.Lead, Copying.From;
    var m, h := s.mem, s.here;
    var c, want := Copying.Copy(m, src, h, u), m[..h] + m[src..src + u] + m[h + u..];
    forall x: word ensures c[x] == want[x] {
      if h <= x < h + u {
        LeadClear(h, src, u);
        Copying.CopyAt(m, src, h, u, x - h);
        Copying.Ahead(src, h, x - h);
      } else {
        Outside(h, x, u);
        Copying.CopyElse(m, src, h, u, x);
      }
    }
    assert c == want;
  }

  lemma LeadClear(h: word, src: word, u: word)
    requires src + u <= MEMSIZE && h + u <= MEMSIZE && (h <= src || src + u <= h)
    ensures Copying.Lead(src, h) == 0 || Copying.Lead(src, h) >= u
  {
  }

  lemma Outside(h: word, x: word, u: word)
    requires h + u <= MEMSIZE && !(h <= x < h + u)
    ensures Sub16(x, h) >= u
  {
  }

  /** CODE: name, link and length at HERE, and CURRENT moves to what follows. */
  function Header(s: CState, name: seq<byte>): CState
    requires s.here + |name| + 3 < MEMSIZE && |name| <= MAXNAME
  {
    var t := CComma(Comma(MoveIn(s, name), s.current), |name|);
    t.(current := t.here)
  }

  lemma HeaderEffect(s: CState, name: seq<byte>)
    requires s.here + |name| + 3 < 0xffff && |name| <= MAXNAME
    requires s.current <= s.here
    ensures var t := Header(s, name);
            && t == s.(mem := t.mem, here := s.here + |name| + 3, current := s.here + |name| + 3)
            && SameOutside(s.mem, t.mem, s.here, t.here)
            && EntryAt(t.mem, Entry(t.current, name), s.current)
  {
    var t := Header(s, name);
    var h, n := s.here, |name|;
    assert t.mem[h..h + n] == name;
  }

  /** A new word goes in front of the dictionary, and nothing else in it changes. */
  lemma HeaderChains(s: CState, name: seq<byte>, es: seq<Entry>)
    requires s.here + |name| + 3 < 0xffff && |name| <= MAXNAME
    requires Chain(s.mem, s.current, es) && s.current <= s.here
    ensures var t := Header(s, name);
            Chain(t.mem, t.current, [Entry(t.current, name)] + es)
  {
    HeaderEffect(s, name);
    var t := Header(s, name);
    ChainBelow(s.mem, t.mem, s.current, es, s.here);
    var fs := [Entry(t.current, name)] + es;
    assert fs[1..] == es;
  }

  // ----- FORGET -----

  /** FORGET once FIND has answered w: HERE goes to the start of w's header and CURRENT
      to the entry before it. */
  function ForgetAt(s: CState, w: word): CState {
    var len := s.mem[W(w - 1)] % 0x80;
    s.(here := W(w - (len + 3)), current := WordAt(s.mem, W(w - 3)))
  }

  /** A word, what its definition appends after the header, and whether IMMEDIATE follows. */
  datatype Def = Def(name: seq<byte>, body: seq<byte>, immediate: bool)

  /** IMMEDIATE sets bit 7 of the newest entry's length byte. */
  function SetImmediate(s: CState): CState {
    var a := W(s.current - 1);
    s.(mem := s.mem[a := s.mem[a] % 0x80 + 0x80])
  }

  /** Definitions in order: each is a header and then bytes appended at HERE. */
  function Define(s: CState, d: Def): CState
    requires s.here + |d.name| + 3 + |d.body| < 0xffff && |d.name| <= MAXNAME
  {
    var t := MoveIn(Header(s, d.name), d.body);
    if d.immediate then SetImmediate(t) else t
  }

  function Need(ds: seq<Def>): nat {
    if ds == [] then 0 else |ds[0].name| + 3 + |ds[0].body| + Need(ds[1..])
  }

  predicate Names(ds: seq<Def>) {
    forall d :: d in ds ==> |d.name| <= MAXNAME
  }

  function DefineAll(s: CState, ds: seq<Def>): (t: CState)
    requires s.here + Need(ds) < 0xffff && Names(ds)
    ensures t.here == s.here + Need(ds)
    decreases |ds|
  {
    if ds == [] then s else DefineAll(Define(s, ds[0]), ds[1..])
  }

  lemma DefineChains(s: CState, d: Def, es: seq<Entry>)
    requires s.here + |d.name| + 3 + |d.body| < 0xffff && |d.name| <= MAXNAME
    requires Chain(s.mem, s.current, es) && s.current <= s.here
    ensures var t := Define(s, d);
            && t.current == s.here + |d.name| + 3
            && t.here == t.current + |d.body|
            && Chain(t.mem, t.current, [Entry(t.current, d.name)] + es)
            && SameOutside(s.mem, t.mem, s.here, t.here)
  {
    hide Chain, EntryAt, Header, SetImmediate;
    HeaderEffect(s, d.name);
    HeaderChains(s, d.name, es);
    var u := Header(s, d.name);
    BodyEffect(u, d.body);
    var v := MoveIn(u, d.body);
    var fs := [Entry(u.current, d.name)] + es;
    ChainBelow(u.mem, v.mem, u.current, fs, u.here);
    MarkImmediate(v, fs);
    hide SameOutside;
    SameOutsideTrans(s.mem, u.mem, v.mem, s.here, u.here, u.here, v.here, s.here, v.here);
    var t := SetImmediate(v);
    SameOutsideTrans(s.mem, v.mem, t.mem, s.here, v.here, v.current - 1, v.current, s.here, v.here);
  }

  lemma BodyEffect(s: CState, body: seq<byte>)
    requires s.here + |body| < MEMSIZE
    ensures var t := MoveIn(s, body);
            && t == s.(mem := t.mem, here := s.here + |body|) && SameOutside(s.mem, t.mem, s.here, t.here)
            && forall i: word :: i < s.here ==> s.mem[i] == t.mem[i]
  {
  }

  /** IMMEDIATE sets bit 7 of the byte in front of CURRENT, and changes nothing else. */
  lemma ImmediateSets(s: CState)
    ensures var a: word := if s.current == 0 then 0xffff else s.current - 1;
            var t := SetImmediate(s);
            && t == s.(mem := t.mem)
            && t.mem[a] / 0x80 == 1 && t.mem[a] % 0x80 == s.mem[a] % 0x80
            && forall x: word :: x != a ==> t.mem[x] == s.mem[x]
  {
  }

  /** The bytes that CODE lays down: the name, the link, low byte first, and the length. */
  lemma HeaderBytes(s: CState, name: seq<byte>)
    requires s.here + |name| + 3 < 0xffff && |name| <= MAXNAME
    ensures var t := Header(s, name);
            t.mem[s.here..s.here + |name| + 3] == name + [s.current % 0x100, s.current / 0x100, |name|]
  {
    var t := Header(s, name);
    assert t.mem[s.here..s.here + |name|] == name;
  }

  /** A defined word's length byte says whether IMMEDIATE followed. */
  lemma DefineFlag(s: CState, d: Def)
    requires s.here + |d.name| + 3 + |d.body| < 0xffff && |d.name| <= MAXNAME && s.current <= s.here
    ensures Define(s, d).mem[s.here + |d.name| + 2] == |d.name| + if d.immediate then 0x80 else 0
  {
    HeaderBytes(s, d.name);
    HeaderEffect(s, d.name);
    var u := Header(s, d.name);
    var n := |d.name|;
    assert u.mem[s.here..s.here + n + 3][n + 2] == n;
    BodyEffect(u, d.body);
    var v := MoveIn(u, d.body);
    hide Header, MoveIn;
    ImmediateSets(v);
    hide SetImmediate;
  }

  /** IMMEDIATE changes one byte, and no entry. */
  lemma MarkImmediate(s: CState, es: seq<Entry>)
    requires es != [] && Chain(s.mem, s.current, es) && s.current > 0
    ensures var t := SetImmediate(s);
            && t == s.(mem := t.mem) && Chain(t.mem, s.current, es)
            && SameOutside(s.mem, t.mem, s.current - 1, s.current)
  {
    var i := s.current - 1;
    assert es[0].addr == s.current && W(s.current - 1) == i;
    hide EntryAt;
    ChainImmediate(s.mem, s.current, es, 0, s.mem[i] % 0x80 + 0x80);
  }

  /** Entries that definitions add, most recent first. */
  function Added(here: nat, ds: seq<Def>): seq<Entry>
    requires here + Need(ds) < 0xffff
    decreases |ds|
  {
    if ds == [] then []
    else
      var w := here + |ds[0].name| + 3;
      Added(w + |ds[0].body|, ds[1..]) + [Entry(w, ds[0].name)]
  }

  /** After any run of definitions the dictionary is the old one with one entry for each
      definition in front, in reverse order. */
  lemma {:induction false} DefineAllChains(s: CState, ds: seq<Def>, es: seq<Entry>)
    requires s.here + Need(ds) < 0xffff && Names(ds)
    requires Chain(s.mem, s.current, es) && s.current <= s.here
    ensures var t := DefineAll(s, ds);
            Chain(t.mem, t.current, Added(s.here, ds) + es) && t.current <= t.here
    decreases |ds|
  {
    hide Chain, Define, SameOutside;
    if ds == [] {
      assert Added(s.here, ds) + es == es;
    } else {
      var d := ds[0];
      DefineChains(s, d, es);
      var t := Define(s, d);
      var fs := [Entry(t.current, d.name)] + es;
      DefineAllChains(t, ds[1..], fs);
      assert Added(s.here, ds) + es == Added(t.here, ds[1..]) + fs;
    }
  }

  lemma {:induction false} LookupAppend(a: seq<Entry>, b: seq<Entry>, name: seq<byte>)
    ensures Lookup(a + b, name) == if Lookup(a, name).Some? then Lookup(a, name) else Lookup(b, name)
  {
    if a == [] {
      assert a + b == b;
    } else {
      assert (a + b)[1..] == a[1..] + b;
      LookupAppend(a[1..], b, name);
    }
  }

  lemma {:induction false} AddedNames(here: nat, ds: seq<Def>, name: seq<byte>)
    requires here + Need(ds) < 0xffff
    requires forall d :: d in ds ==> d.name != name
    ensures Lookup(Added(here, ds), name) == None
    decreases |ds|
  {
    if ds != [] {
      var w := here + |ds[0].name| + 3;
      assert forall d :: d in ds[1..] ==> d in ds;
      AddedNames(w + |ds[0].body|, ds[1..], name);
      LookupAppend(Added(w + |ds[0].body|, ds[1..]), [Entry(w, ds[0].name)], name);
    }
  }

  /** FORGET undoes: define d and then any number of other words under other names; FIND
      of d's name answers d's entry, and forgetting it brings HERE and CURRENT back to
      what they were before d was defined, with the old dictionary intact. */
  lemma ForgetUndoes(s: CState, d: Def, later: seq<Def>, es: seq<Entry>)
    requires Names([d] + later)
    requires s.here + Need([d] + later) < 0xffff
    requires Chain(s.mem, s.current, es) && s.current <= s.here
    requires forall x :: x in later ==> x.name != d.name
    ensures var t := DefineAll(s, [d] + later);
            var all := Added(s.here, [d] + later) + es;
            && Chain(t.mem, t.current, all)
            && Lookup(all, d.name) == Some(Entry(s.here + |d.name| + 3, d.name))
            && var u := ForgetAt(t, s.here + |d.name| + 3);
               u.here == s.here && u.current == s.current && Chain(u.mem, u.current, es)
  {
    hide DefineAll, EntryAt, Lookup, Chain, Added, Need, ForgetAt, Names;
    FirstAdded(s.here, d, later, es);
    ChainStart(s.mem, s.current, es);
    var w := s.here + |d.name| + 3;
    var rest := Added(w + |d.body|, later);
    var mine := [Entry(w, d.name)];
    var t := DefineAll(s, [d] + later);
    DefineAllChains(s, [d] + later, es);
    ChainTail(t.mem, t.current, rest, mine + es);
    ForgetEntry(t, Entry(w, d.name), es);
  }

  /** The entry of the first of some definitions lies behind those of the others, and a search
      for its name finds it. */
  lemma FirstAdded(h: nat, d: Def, later: seq<Def>, es: seq<Entry>)
    requires h + Need([d] + later) < 0xffff
    requires forall x :: x in later ==> x.name != d.name
    ensures h + |d.name| + 3 + |d.body| + Need(later) < 0xffff
    ensures var w := h + |d.name| + 3;
            var all := Added(h, [d] + later) + es;
            && all == Added(w + |d.body|, later) + ([Entry(w, d.name)] + es)
            && Lookup(all, d.name) == Some(Entry(w, d.name))
  {
    hide Lookup;
    var ds := [d] + later;
    assert ds[0] == d && ds[1..] == later;
    var w := h + |d.name| + 3;
    var rest := Added(w + |d.body|, later);
    var mine := [Entry(w, d.name)];
    AddedNames(w + |d.body|, later, d.name);
    LookupAppend(rest + mine, es, d.name);
    LookupAppend(rest, mine, d.name);
    LookupOne(Entry(w, d.name));
    assert Added(h, ds) + es == rest + (mine + es);
  }

  lemma LookupOne(e: Entry)
    ensures Lookup([e], e.name) == Some(e)
  {
  }

  lemma ForgetEntry(t: CState, e: Entry, es: seq<Entry>)
    requires Chain(t.mem, e.addr, [e] + es)
    ensures var u := ForgetAt(t, e.addr);
            u.here == e.addr - 3 - |e.name| && u.current == Addr(es) && Chain(u.mem, u.current, es)
  {
    assert ([e] + es)[1..] == es;
    ChainHead(t.mem, e, es);
    hide Chain, EntryAt;
    assert W(e.addr - 1) == e.addr - 1 && W(e.addr - 3) == e.addr - 3;
  }

  lemma ChainStart(m: Mem, w: word, es: seq<Entry>)
    requires Chain(m, w, es)
    ensures w == Addr(es)
  {
  }

  lemma ChainHead(m: Mem, e: Entry, es: seq<Entry>)
    requires Chain(m, e.addr, [e] + es)
    ensures |e.name| + 3 <= e.addr && m[e.addr - 1] % 0x80 == |e.name| && WordAt(m, e.addr - 3) == Addr(es)
    ensures Chain(m, Addr(es), es)
  {
    assert ([e] + es)[1..] == es;
  }

  lemma {:induction false} ChainTail(m: Mem, w: word, a: seq<Entry>, b: seq<Entry>)
    requires Chain(m, w, a + b)
    ensures Chain(m, Addr(b), b)
    decreases a
  {
    if a == [] {
      assert a + b == b;
    } else {
      assert (a + b)[1..] == a[1..] + b;
      ChainTail(m, Addr((a + b)[1..]), a[1..], b);
    }
  }
}
