/** What clients of the heap rely on: every block behaves as an array of its own,
    whatever else is allocated, freed, moved or written in between. */
module HeapRun {
  import opened Wrappers
  import opened HeapLayout
  import opened KernelHeap

  /** Requests name blocks by handles; Grow is krealloc. A handle that names
      nothing is skipped: clients free and write only what they hold. */
  datatype Request =
    | Alloc(handle: nat, size: nat, backing: Backing)
    | Free(handle: nat)
    | Grow(handle: nat, size: nat, backing: Backing)
    | Write(handle: nat, i: nat, w: nat)

  /** One step on private arrays; ok tells whether memory was to be had. */
  ghost predicate CellStep(cells: map<nat, seq<nat>>, req: Request, ok: bool, cells': map<nat, seq<nat>>)
  {
    match req
    case Alloc(h, size, _) =>
      if ok then h !in cells && h in cells' && cells' == cells[h := cells'[h]] && 0 < size <= 8 * |cells'[h]|
      else cells' == cells
    case Free(h) => cells' == cells - {h}
    case Grow(h, size, _) =>
      if ok then
        && h in cells && h in cells' && cells' == cells[h := cells'[h]]
        && cells[h] <= cells'[h] && 0 < size <= 8 * |cells'[h]|
      else cells' == cells || (size == 0 && cells' == cells - {h})
    case Write(h, i, w) =>
      if ok then h in cells && i < |cells[h]| && cells' == cells[h := Put(cells[h], i, w)]
      else cells' == cells && !(h in cells && i < |cells[h]|)
  }

  /** The blocks by their handles. */
  ghost function Cells(table: map<nat, nat>, blocks: map<nat, seq<nat>>): map<nat, seq<nat>>
  {
    map h | h in table && table[h] in blocks :: blocks[table[h]]
  }

  /** Different handles name different live blocks. */
  ghost predicate TableOk(table: map<nat, nat>, live: map<nat, nat>)
  {
    && (forall h :: h in table ==> table[h] in live)
    && (forall h, g :: h in table && g in table && h != g ==> table[h] != table[g])
  }

  /** When a request is met. */
  ghost predicate Succeeds(st: State, table: map<nat, nat>, req: Request)
    requires TableOk(table, st.live)
  {
    match req
    case Alloc(h, size, backing) => h !in table && 0 < size < 0x1_0000_0000 && Servable(st, size, backing)
    case Free(h) => true
    case Grow(h, size, backing) =>
      h in table && 0 < size < 0x1_0000_0000 && (size <= st.live[table[h]] || Servable(st, size, backing))
    case Write(h, i, _) => h in table && i < st.live[table[h]] / 8
  }

  ghost predicate Ready(heap: Heap, table: map<nat, nat>)
    reads heap
  {
    heap.Valid() && TableOk(table, heap.st.live)
  }

  method DoAlloc(heap: Heap, table: map<nat, nat>, h: nat, size: nat, backing: Backing)
    returns (table': map<nat, nat>, ok: bool)
    requires Ready(heap, table)
    modifies heap
    ensures Ready(heap, table')
    ensures CellStep(Cells(table, old(Blocks(heap.st))), Alloc(h, size, backing), ok, Cells(table', Blocks(heap.st)))
    ensures ok <==> Succeeds(old(heap.st), table, Alloc(h, size, backing))
  {
    hide HeapOk, Blocks, Answers, Servable;
    if h in table || size >= 0x1_0000_0000 {
      return table, false;
    }
    ghost var was := Blocks(heap.st);
    BlockDomain(heap.st);
    var r := heap.KMalloc(size, backing);
    if r == 0 {
      return table, false;
    }
    table', ok := table[h := r], true;
    BlockDomain(heap.st);
    AnswersFit(size, heap.st.live[r]);
    BlockCovers(heap.st, r);
    CellsPlus(table, was, Blocks(heap.st), h, r);
  }

  lemma CellsPlus(table: map<nat, nat>, b: map<nat, seq<nat>>, b': map<nat, seq<nat>>, h: nat, r: nat)
    requires h !in table && r !in b && r in b' && b' == b[r := b'[r]] && forall g :: g in table ==> table[g] in b
    ensures h !in Cells(table, b) && Cells(table[h := r], b') == Cells(table, b)[h := b'[r]]
  {}

  method DoFree(heap: Heap, table: map<nat, nat>, h: nat) returns (table': map<nat, nat>)
    requires Ready(heap, table)
    modifies heap
    ensures Ready(heap, table')
    ensures CellStep(Cells(table, old(Blocks(heap.st))), Free(h), true, Cells(table', Blocks(heap.st)))
  {
    hide HeapOk, Blocks;
    if h !in table {
      return table;
    }
    BlockDomain(heap.st);
    heap.KFree(table[h]);
    table' := table - {h};
  }

  method DoWrite(heap: Heap, table: map<nat, nat>, h: nat, i: nat, w: nat) returns (ok: bool)
    requires Ready(heap, table)
    modifies heap
    ensures Ready(heap, table)
    ensures CellStep(Cells(table, old(Blocks(heap.st))), Write(h, i, w), ok, Cells(table, Blocks(heap.st)))
    ensures ok <==> Succeeds(old(heap.st), table, Write(h, i, w))
  {
    hide HeapOk, Blocks;
    BlockDomain(heap.st);
    if h !in table {
      return false;
    }
    BlockLength(heap.st, table[h]);
    var n := heap.BlockSize(table[h]);
    if i >= n / 8 {
      return false;
    }
    ghost var was := Blocks(heap.st);
    heap.Store(table[h], i, w);
    CellsPut(table, was, h, Put(was[table[h]], i, w));
    ok := true;
  }

  lemma CellsPut(table: map<nat, nat>, b: map<nat, seq<nat>>, h: nat, c: seq<nat>)
    requires h in table && forall g :: g in table ==> table[g] in b
    requires forall g, g' :: g in table && g' in table && g != g' ==> table[g] != table[g']
    ensures Cells(table, b[table[h] := c]) == Cells(table, b)[h := c]
  {}

  method DoGrow(heap: Heap, table: map<nat, nat>, h: nat, size: nat, backing: Backing)
    returns (table': map<nat, nat>, ok: bool)
    requires Ready(heap, table)
    modifies heap
    ensures Ready(heap, table')
    ensures CellStep(Cells(table, old(Blocks(heap.st))), Grow(h, size, backing), ok, Cells(table', Blocks(heap.st)))
    ensures ok <==> Succeeds(old(heap.st), table, Grow(h, size, backing))
  {
    hide HeapOk, Blocks, Answers, Servable, TableOk, Cells;
    assert h in table ==> table[h] in heap.st.live by { TableIn(table, heap.st.live); }
    BlockDomain(heap.st);
    CellsIn(table, heap.st.live, Blocks(heap.st));
    if h !in table || size >= 0x1_0000_0000 {
      return table, false;
    }
    ghost var was, ptr, live := Blocks(heap.st), table[h], heap.st.live;
    BlockCovers(heap.st, ptr);
    NoNull(heap.st);
    var r := heap.KRealloc(table[h], size, backing);
    BlockDomain(heap.st);
    if r == 0 {
      if size == 0 {
        CellsMinus(table, live, was, h);
        return table - {h}, false;
      }
      return table, false;
    }
    BlockCovers(heap.st, r);
    if r == ptr {
      CellsStay(table, was, h);
    } else {
      CellsMove(table, live, heap.st.live, was, Blocks(heap.st), h, r);
    }
    return table[h := r], true;
  }

  lemma TableIn(table: map<nat, nat>, live: map<nat, nat>)
    requires TableOk(table, live)
    ensures forall h :: h in table ==> table[h] in live
  {}

  lemma CellsIn(table: map<nat, nat>, live: map<nat, nat>, b: map<nat, seq<nat>>)
    requires TableOk(table, live) && b.Keys == live.Keys
    ensures Cells(table, b).Keys == table.Keys && forall h :: h in table ==> Cells(table, b)[h] == b[table[h]]
  {}

  lemma CellsMinus(table: map<nat, nat>, live: map<nat, nat>, b: map<nat, seq<nat>>, h: nat)
    requires h in table && TableOk(table, live) && b.Keys == live.Keys
    ensures TableOk(table - {h}, live - {table[h]}) && Cells(table - {h}, b - {table[h]}) == Cells(table, b) - {h}
  {}

  lemma CellsStay(table: map<nat, nat>, b: map<nat, seq<nat>>, h: nat)
    requires h in table && table[h] in b
    ensures table[h := table[h]] == table && Cells(table, b) == Cells(table, b)[h := b[table[h]]]
  {}

  lemma CellsMove(table: map<nat, nat>, live: map<nat, nat>, live': map<nat, nat>,
                  b: map<nat, seq<nat>>, b': map<nat, seq<nat>>, h: nat, r: nat)
    requires h in table && TableOk(table, live) && b.Keys == live.Keys && r !in live
    requires r in live' && live' == live[r := live'[r]] - {table[h]}
    requires r in b' && b' == b[r := b'[r]] - {table[h]}
    ensures TableOk(table[h := r], live') && Cells(table[h := r], b') == Cells(table, b)[h := b'[r]]
  {}

  method Perform(heap: Heap, table: map<nat, nat>, req: Request) returns (table': map<nat, nat>, ok: bool)
    requires Ready(heap, table)
    modifies heap
    ensures Ready(heap, table')
    ensures CellStep(Cells(table, old(Blocks(heap.st))), req, ok, Cells(table', Blocks(heap.st)))
    ensures ok <==> Succeeds(old(heap.st), table, req)
  {
    hide HeapOk, Blocks, CellStep, Cells, TableOk, Servable;
    match req
    case Alloc(h, size, backing) => table', ok := DoAlloc(heap, table, h, size, backing);
    case Free(h) =>
      table' := DoFree(heap, table, h);
      ok := true;
    case Grow(h, size, backing) => table', ok := DoGrow(heap, table, h, size, backing);
    case Write(h, i, w) =>
      table' := table;
      ok := DoWrite(heap, table, h, i, w);
  }

  /** What a run goes through: the heap, and the blocks that the handles name. */
  datatype Conf = Conf(st: State, table: map<nat, nat>)

  ghost function Arrays(c: Conf): map<nat, seq<nat>>
  {
    Cells(c.table, Blocks(c.st))
  }

  ghost predicate RunStep(c: Conf, req: Request, ok: bool, c': Conf)
  {
    && HeapOk(c.st) && HeapOk(c'.st) && TableOk(c.table, c.st.live)
    && CellStep(Arrays(c), req, ok, Arrays(c')) && (ok <==> Succeeds(c.st, c.table, req))
  }

  ghost predicate IsRun(confs: seq<Conf>, reqs: seq<Request>, oks: seq<bool>)
  {
    && |oks| == |reqs| && |confs| == |reqs| + 1
    && forall i :: 0 <= i < |reqs| ==> RunStep(confs[i], reqs[i], oks[i], confs[i + 1])
  }

  ghost predicate InHeader(s: State, x: nat)
  {
    (exists p :: p in s.slabs && p <= x < p + SLAB_HDR) || (exists b :: b in s.larges && b <= x < b + 16)
  }

  /** No byte of the block at a lies in a header. */
  ghost predicate OffHeaders(s: State, a: nat)
  {
    a in s.live ==> forall x :: a <= x < a + s.live[a] ==> !InHeader(s, x)
  }

  /** Any run of requests from an empty heap is a run on private arrays in which each
      request succeeds exactly when it can, and at its end the blocks are aligned,
      disjoint and clear of every header. */
  method Run(start: nat, reqs: seq<Request>)
    returns (heap: Heap, table: map<nat, nat>, oks: seq<bool>, ghost confs: seq<Conf>)
    requires start % PAGE_SIZE == 0 && start > 0
    ensures Ready(heap, table) && IsRun(confs, reqs, oks)
    ensures Arrays(confs[0]) == map[] && confs[|reqs|] == Conf(heap.st, table)
    ensures forall h :: h in table ==> table[h] % 16 == 0 && OffHeaders(heap.st, table[h])
    ensures forall h, g :: h in table && g in table && h != g ==>
      Apart(table[h], heap.st.live[table[h]], table[g], heap.st.live[table[g]])
  {
    hide HeapOk, Blocks, CellStep, TableOk, Apart, Cells, Succeeds, OffHeaders;
    heap := new Heap(start);
    table, oks, confs := map[], [], [Conf(heap.st, map[])];
    NoCells(heap.st.live, Blocks(heap.st));
    for n := 0 to |reqs|
      invariant fresh(heap) && Ready(heap, table) && IsRun(confs, reqs[..n], oks)
      invariant Arrays(confs[0]) == map[] && confs[n] == Conf(heap.st, table)
    {
      ghost var c := confs[n];
      var ok;
      table, ok := Perform(heap, table, reqs[n]);
      assert RunStep(c, reqs[n], ok, Conf(heap.st, table));
      assert reqs[..n] + [reqs[n]] == reqs[..n + 1];
      oks, confs := oks + [ok], confs + [Conf(heap.st, table)];
    }
    assert reqs[..|reqs|] == reqs;
    TableApart(heap.st, table);
  }

  lemma NoCells(live: map<nat, nat>, b: map<nat, seq<nat>>)
    ensures TableOk(map[], live) && Cells(map[], b) == map[]
  {}

  lemma TableApart(s: State, table: map<nat, nat>)
    requires HeapOk(s) && TableOk(table, s.live)
    ensures forall h :: h in table ==> table[h] % 16 == 0 && OffHeaders(s, table[h])
    ensures forall h, g :: h in table && g in table && h != g ==>
      Apart(table[h], s.live[table[h]], table[g], s.live[table[g]])
  {
    hide HeapOk;
    forall h | h in table ensures table[h] % 16 == 0 && OffHeaders(s, table[h]) {
      var a := table[h];
      BlockAligned(s, a);
      forall x | a <= x < a + s.live[a] ensures !InHeader(s, x) { HeadersApart(s, a, x); }
    }
    forall h, g | h in table && g in table && h != g
      ensures Apart(table[h], s.live[table[h]], table[g], s.live[table[g]])
    {
      BlocksApart(s, table[h], table[g]);
    }
  }

  ghost predicate Apart(a: nat, n: nat, b: nat, m: nat)
  {
    a + n <= b || b + m <= a
  }
}
