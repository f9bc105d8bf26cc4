/** Runs of the paging code over any number of directories, as a step system on values. */
module PagingRuns {
  import opened Options
  import opened Bits
  import opened PageTables
  import opened AddressSpaces

  /** A page granted (with the address of a new table, if its slot has none), a page
      freed, a directory created, a byte stored in user mode, or a request without effect:
      refused, or a store that faults. */
  datatype Event =
    | Map(key: Key, table: nat)
    | Unmap(key: Key)
    | NewDirectory(dir: nat)
    | Store(user: nat, addr: Word, value: Byte)
    | Refused

  predicate Enabled(s: State, e: Event) {
    match e
    case Map(key, table) =>
      && s.stack != [] && key !in s.pages
      && key.dir in s.dirs && key.dir != s.kernelDir && key.page < FRAMES
      && (SlotOf(key) in s.tables || FreshPage(s, table))
    case Unmap(key) => key in s.pages
    case NewDirectory(dir) => FreshPage(s, dir)
    case Store(d, v, _) => d in s.dirs && d != s.kernelDir && v < KERNEL_BASE && Mapped(s, d, v).Some?
    case Refused => true
  }

  ghost function WithTable(s: State, k: Slot, t: nat): (r: State)
    requires Inv(s) && k.dir in s.dirs && k.dir != s.kernelDir && k.index < KERNEL_ENTRY
    requires k in s.tables || FreshPage(s, t)
    ensures Inv(r) && k in r.tables && TableOk(r, k)
    ensures r.stack == s.stack && r.pages == s.pages && r.dirs == s.dirs && r.kernelDir == s.kernelDir
    ensures forall l :: l in s.tables ==> l in r.tables && r.tables[l] == s.tables[l]
  {
    assert DirOk(s, k.dir);
    if k in s.tables then assert TableOk(s, k); s
    else
      AddTableKeepsInv(s, k, t);
      assert TableOk(AddTable(s, k, t), k);
      AddTable(s, k, t)
  }

  ghost function Apply(s: State, e: Event): (r: State)
    requires Inv(s) && Enabled(s, e)
    ensures Inv(r) && s.dirs <= r.dirs && r.kernelDir == s.kernelDir
  {
    match e
    case Map(key, table) =>
      var q := WithTable(s, SlotOf(key), table);
      PopChain(q.stack, q.links);
      MapPageKeepsInv(q, key);
      MapPage(q, key)
    case Unmap(key) =>
      UnmapPageKeepsInv(s, key);
      UnmapPage(s, key)
    case NewDirectory(dir) =>
      AddDirectoryKeepsInv(s, dir);
      AddDirectory(s, dir)
    case Store(d, v, b) =>
      var p := Mapped(s, d, v).value;
      MappedFrame(s, d, v);
      PutByteKeepsInv(s, p, b);
      PutByte(s, p, b)
    case Refused => s
  }

  /** One step of the system leads from `s` to `r`. */
  ghost predicate Next(s: State, e: Event, r: State) {
    Inv(s) && Enabled(s, e) && r == Apply(s, e)
  }

  lemma ApplyRefinesMap(s: State, e: Event)
    requires Inv(s) && Enabled(s, e)
    ensures var r := Apply(s, e);
      match e
      case Map(key, _) => r.pages == s.pages[key := s.stack[0]] && r.stack == s.stack[1..] && r.dirs == s.dirs
      case Unmap(key) => r.pages == s.pages - {key} && r.stack == [s.pages[key]] + s.stack && r.dirs == s.dirs
      case NewDirectory(dir) => r.pages == s.pages && r.stack == s.stack && dir !in s.dirs && r.dirs == s.dirs + {dir}
      case Store(_, _, _) => r.pages == s.pages && r.stack == s.stack && r.dirs == s.dirs
      case Refused => r == s
  {
    hide Frames, Chain, DirWord, TableWord, ByteAt, PutByte;
    match e
    case NewDirectory(d) => AddDirectoryKeepsInv(s, d);
    case Store(d, v, b) =>
      MappedFrame(s, d, v);
      StoreKeepsMap(s, Mapped(s, d, v).value, b);
    case _ =>
  }

  lemma StoreKeepsMap(s: State, p: nat, b: Byte)
    requires PAGE_OFFSET <= p < WORD && |s.links| == FRAMES
    ensures var r := PutByte(s, p, b);
      && r.words == s.words && r.tables == s.tables
      && r.pages == s.pages && r.stack == s.stack && r.dirs == s.dirs && r.kernelDir == s.kernelDir
  {
  }

  /** Which directories and tables a step makes. */
  lemma MapKeys(s: State, key: Key, table: nat)
    requires Inv(s) && Enabled(s, Map(key, table))
    ensures var r := Apply(s, Map(key, table));
      && (forall p :: p in r.words <==> p in s.words || (SlotOf(key) !in s.tables && p == table))
      && (forall k :: k in r.tables <==> k in s.tables || k == SlotOf(key))
  {
    hide Frames, Chain, DirWord, TableWord;
    var q := WithTable(s, SlotOf(key), table);
    assert DirOk(s, key.dir);
    PopChain(q.stack, q.links);
    assert Apply(s, Map(key, table)).words.Keys == q.words.Keys;
  }

  lemma OtherKeys(s: State, e: Event)
    requires Inv(s) && Enabled(s, e) && !e.Map?
    ensures var r := Apply(s, e);
      && r.tables == s.tables
      && (forall p :: p in r.words <==> p in s.words || e == NewDirectory(p))
      && (e.NewDirectory? ==> forall k :: k in s.tables ==> k.dir != e.dir)
  {
    hide Frames, Chain, DirWord, TableWord;
    match e
    case Unmap(key) => UnmapPageKeepsInv(s, key);
    case NewDirectory(d) =>
      AddDirectoryKeepsInv(s, d);
      forall k | k in s.tables ensures k.dir != d { assert TableOk(s, k); }
    case Store(d, v, b) =>
      MappedFrame(s, d, v);
      StoreKeepsMap(s, Mapped(s, d, v).value, b);
    case Refused =>
  }

  /** The two-level walk of any directory in terms of the plain map. */
  lemma TranslateIs(s: State, d: nat, v: Word)
    requires Inv(s) && d in s.dirs
    ensures DirOk(s, d)
    ensures Translate(s, d, v) ==
      if v >= KERNEL_BASE then Some(v - KERNEL_BASE)
      else if d == s.kernelDir then Some(v + PAGE_OFFSET)
      else Mapped(s, d, v)
  {
    if v >= KERNEL_BASE { KernelHalf(s, d, v); }
    else if d != s.kernelDir { UserHalf(s, d, v); }
    else { KernelLinearMap(s, v); }
  }

  /** The address map in numbers: the kernel half from 0xC0000000 leads to the bottom of
      physical memory; the kernel's directory maps the rest one GiB up; a process has frame
      `f`, at 0x40000000 and 0x1000 for each frame below it, where it was granted it. */
  lemma AddressMap(s: State, d: nat, v: Word)
    requires Inv(s) && d in s.dirs
    ensures DirOk(s, d)
    ensures v >= 0xC000_0000 ==> Translate(s, d, v) == Some(v - 0xC000_0000)
    ensures v < 0xC000_0000 && d == s.kernelDir ==> Translate(s, d, v) == Some(v + 0x4000_0000)
    ensures v < 0xC000_0000 && d != s.kernelDir ==>
      var key := Key(d, v / 0x1000);
      Translate(s, d, v) ==
        if key in s.pages then Some(0x4000_0000 + 0x1000 * s.pages[key] + v % 0x1000) else None
  {
    TranslateIs(s, d, v);
  }

  /** Address `v` of directory `d` lies in the page a step is about. */
  predicate Hits(key: Key, d: nat, v: Word) {
    d == key.dir && v < KERNEL_BASE && v / PAGE_SIZE == key.page
  }

  /** What the processor's walk sees of one step: the page granted leads to the frame on top
      of the stack, the page freed leads nowhere, and every other address of every
      directory translates as before. A new directory reaches the kernel half only. */
  lemma StepTranslates(s: State, e: Event, d: nat, v: Word)
    requires Inv(s) && Enabled(s, e) && d in Apply(s, e).dirs
    ensures DirOk(Apply(s, e), d) && (d in s.dirs ==> DirOk(s, d))
    ensures var now := Translate(Apply(s, e), d, v);
      if d !in s.dirs then e == NewDirectory(d) && now == if v >= KERNEL_BASE then Some(v - KERNEL_BASE) else None
      else if e.Map? && Hits(e.key, d, v) then now == Some(PAGE_OFFSET + s.stack[0] * PAGE_SIZE + v % PAGE_SIZE)
      else if e.Unmap? && Hits(e.key, d, v) then now == None
      else now == Translate(s, d, v)
  {
    hide Inv, Apply, DirOk, Translate;
    ApplyRefinesMap(s, e);
    TranslateIs(Apply(s, e), d, v);
    PagesHaveDirs(s);
    if d in s.dirs { TranslateIs(s, d, v); }
  }

  /** What a step does to the contents of the user frames. */
  lemma StepBytes(s: State, e: Event, p: nat)
    requires Inv(s) && Enabled(s, e) && PAGE_OFFSET <= p < WORD
    ensures |s.links| == |Apply(s, e).links| == FRAMES
    ensures match e
      case Unmap(key) => FrameOf(p) != s.pages[key] ==> ByteAt(Apply(s, e), p) == ByteAt(s, p)
      case Store(d, v, b) => ByteAt(Apply(s, e), p) == if Some(p) == Mapped(s, d, v) then b else ByteAt(s, p)
      case _ => ByteAt(Apply(s, e), p) == ByteAt(s, p)
  {
    hide DirsAndTables, Frames, WordByte;
    if e.Store? {
      MappedFrame(s, e.user, e.addr);
      ByteAtPut(s, Mapped(s, e.user, e.addr).value, e.value, p);
    }
  }

  /** Two pages of process directories never share a byte. */
  lemma MappedApart(s: State, d: nat, v: Word, e: nat, w: Word)
    requires Inv(s) && Mapped(s, d, v).Some? && Mapped(s, e, w).Some?
    ensures FrameOf(MappedAt(s, d, v)) == FrameOf(MappedAt(s, e, w)) ==> d == e && v / PAGE_SIZE == w / PAGE_SIZE
    ensures MappedAt(s, d, v) == MappedAt(s, e, w) ==> d == e && v == w
  {
    hide DirsAndTables, Chain;
    MappedFrame(s, d, v);
    MappedFrame(s, e, w);
  }

  function MappedAt(s: State, d: nat, v: Word): (p: nat)
    requires Inv(s) && Mapped(s, d, v).Some?
    ensures PAGE_OFFSET <= p < WORD && Some(p) == Mapped(s, d, v)
  {
    MappedFrame(s, d, v);
    Mapped(s, d, v).value
  }

  /** What a process finds at an address changes only by its own store to that very address,
      and when that page is granted or freed: memory is private. A granted page shows what
      its frame held. */
  lemma StepSees(s: State, e: Event, d: nat, v: Word)
    requires Inv(s) && Enabled(s, e) && d in s.dirs
    ensures DirOk(s, d) && DirOk(Apply(s, e), d)
    ensures var was, now := Seen(s, d, v), Seen(Apply(s, e), d, v);
      if e.Store? && e.user == d && e.addr == v then now == Some(e.value)
      else if e.Map? && Hits(e.key, d, v) then
        var p := PAGE_OFFSET + s.stack[0] * PAGE_SIZE + v % PAGE_SIZE;
        was == None && p < WORD && now == Some(ByteAt(s, p))
      else if e.Unmap? && Hits(e.key, d, v) then now == None
      else now == was
  {
    hide Inv, Apply, DirOk, Seen, ByteAt, MappedAt;
    ApplyRefinesMap(s, e);
    SeenIs(s, d, v);
    SeenIs(Apply(s, e), d, v);
    PagesHaveDirs(s);
    if v < KERNEL_BASE && d != s.kernelDir && Mapped(Apply(s, e), d, v).Some? {
      MappedFrame(Apply(s, e), d, v);
      StepBytes(s, e, Mapped(Apply(s, e), d, v).value);
      if e.Unmap? { FramesApart(s, Key(d, v / PAGE_SIZE), e.key); }
      if e.Store? { MappedApart(s, d, v, e.user, e.addr); }
    }
  }

  lemma FramesApart(s: State, key: Key, other: Key)
    requires Inv(s) && key in s.pages && other in s.pages && key != other
    ensures s.pages[key] != s.pages[other]
  {
  }

  /** Only process directories map pages, and only in the user half. */
  lemma PagesHaveDirs(s: State)
    requires Inv(s)
    ensures s.kernelDir in s.dirs
    ensures forall key :: key in s.pages ==>
      key.dir in s.dirs && key.dir != s.kernelDir && key.page < KERNEL_BASE / PAGE_SIZE
  {
    forall key | key in s.pages
      ensures key.dir in s.dirs && key.dir != s.kernelDir && key.page < KERNEL_BASE / PAGE_SIZE
    {
      assert TableOk(s, SlotOf(key));
    }
  }

  ghost predicate Run(s: State, es: seq<Event>)
    requires Inv(s)
    decreases |es|
  {
    es == [] || (Enabled(s, es[0]) && Run(Apply(s, es[0]), es[1..]))
  }

  ghost function After(s: State, es: seq<Event>): (r: State)
    requires Inv(s) && Run(s, es)
    ensures Inv(r) && s.dirs <= r.dirs && r.kernelDir == s.kernelDir
    decreases |es|
  {
    if es == [] then s else After(Apply(s, es[0]), es[1..])
  }

  /** After any run, frames are conserved, every directory translates the kernel half
      alike, and user pages reach only their own frames. */
  lemma RunSafety(s: State, es: seq<Event>, d: nat, v: Word)
    requires Inv(s) && Run(s, es) && d in After(s, es).dirs
    ensures var r := After(s, es);
      && |r.stack| + |r.pages| == FRAMES
      && DirOk(r, d)
      && (v >= KERNEL_BASE ==> Translate(r, d, v) == Some(v - KERNEL_BASE))
      && (v < KERNEL_BASE && d != r.kernelDir ==> Translate(r, d, v) == Mapped(r, d, v))
  {
    FramesConserved(After(s, es));
    TranslateIs(After(s, es), d, v);
  }

  /** An address that a directory translates goes on leading to the same physical byte,
      whatever any process does, until its own page is freed. */
  lemma {:induction false} MappingPersists(s: State, es: seq<Event>, d: nat, v: Word)
    requires Inv(s) && Run(s, es) && d in s.dirs && Unmap(Key(d, v / PAGE_SIZE)) !in es
    ensures DirOk(s, d) && DirOk(After(s, es), d)
    ensures Translate(s, d, v).Some? ==> Translate(After(s, es), d, v) == Translate(s, d, v)
    decreases |es|
  {
    hide Inv, Apply, DirOk, Translate, Enabled;
    if es == [] {
      TranslateIs(s, d, v);
    } else {
      StepTranslates(s, es[0], d, v);
      if es[0].Map? && Hits(es[0].key, d, v) { StaysMapped(s, es[0], d, v); }
      MappingPersists(Apply(s, es[0]), es[1..], d, v);
    }
  }

  /** What a process has at an address stays there, whatever every other process does, until
      it stores to that address itself or the page is freed. */
  lemma {:induction false} ContentsPersist(s: State, es: seq<Event>, d: nat, v: Word)
    requires Inv(s) && Run(s, es) && d in s.dirs && Unmap(Key(d, v / PAGE_SIZE)) !in es
    requires forall b: Byte :: Store(d, v, b) !in es
    ensures DirOk(s, d) && DirOk(After(s, es), d) && |s.links| == |After(s, es).links| == FRAMES
    ensures Seen(s, d, v).Some? ==> Seen(After(s, es), d, v) == Seen(s, d, v)
    decreases |es|
  {
    hide Inv, Apply, DirOk, Seen, Enabled;
    SeenIs(s, d, v);
    if es != [] {
      StepSees(s, es[0], d, v);
      assert es[0].Store? ==> es[0] == Store(es[0].user, es[0].addr, es[0].value);
      ContentsPersist(Apply(s, es[0]), es[1..], d, v);
    }
  }

  /** A request for a page that is mapped already is not granted. */
  lemma StaysMapped(s: State, e: Event, d: nat, v: Word)
    requires Inv(s) && Enabled(s, e) && d in s.dirs && e.Map? && Hits(e.key, d, v)
    ensures DirOk(s, d) && Translate(s, d, v) == None
  {
    TranslateIs(s, d, v);
  }

  /** Granting a fresh page and freeing it again restores the map, the free stack and its
      links; all that remains is the table, when the slot had none. */
  lemma GrantThenFree(s: State, key: Key, table: nat)
    requires Inv(s) && Enabled(s, Map(key, table))
    ensures var r := Apply(s, Map(key, table));
      Enabled(r, Unmap(key)) && Apply(r, Unmap(key)) == WithTable(s, SlotOf(key), table)
    ensures SlotOf(key) in s.tables ==> WithTable(s, SlotOf(key), table) == s
  {
    MapThenUnmap(WithTable(s, SlotOf(key), table), key);
  }
}
