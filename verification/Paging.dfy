/** Four-level paging: entries, table frames, and the position of a table or a
    leaf in an address space. */
module Paging {
  const PAGE_SIZE := 4096
  const ENTRIES := 512
  const USER_SPACE_TOP := 0x8000_0000_0000
  /** User pages lie above the supervisor identity window [0, 1 GiB). */
  const IDENTITY_TOP := 0x4000_0000
  const VIRT_TOP := 0x1_0000_0000_0000

  type byte = b: int | 0 <= b < 256
  type Page = s: seq<byte> | |s| == PAGE_SIZE witness seq(PAGE_SIZE, _ => 0)

  function ZeroPage(): Page
  {
    seq(PAGE_SIZE, _ => 0)
  }

  /** A page-table entry: the bits the kernel tests, and the frame number. */
  datatype Pte = Pte(present: bool, write: bool, user: bool, huge: bool, cow: bool, nx: bool, frame: nat)

  const NO_PTE := Pte(false, false, false, false, false, false, 0)

  /** A 4 KiB frame of physical memory holds a page table or page data. */
  datatype Content = Table(entries: seq<Pte>) | Data(bytes: Page)

  function EmptyTable(): Content
  {
    Table(seq(ENTRIES, _ => NO_PTE))
  }

  /** An address space is named by the frame of its root table. The tables of
      the kernel half and of the identity window belong to no single space. */
  datatype Space = Shared | Private(root: nat)

  /** Where a table or a leaf sits: the entries followed from the root. */
  datatype Path = Root(space: Space) | Sub(up: Path, idx: nat)

  function Depth(p: Path): nat
  {
    match p
    case Root(_) => 0
    case Sub(q, _) => Depth(q) + 1
  }

  function SpaceOf(p: Path): Space
  {
    match p
    case Root(s) => s
    case Sub(q, _) => SpaceOf(q)
  }

  predicate IsPrivate(p: Path)
  {
    SpaceOf(p).Private?
  }

  /** Which positions exist: a private root owns entries 0..255 except the
      identity window at (0, 0); the rest is reached through shared tables. */
  predicate IsPos(p: Path)
  {
    match p
    case Root(s) => s.Private?
    case Sub(q, i) =>
      && i < ENTRIES
      && if q == Root(Shared) then i >= 256
         else if q.Root? then i < 256
         else if q == Sub(Root(Shared), 0) then i == 0
         else if q.up.Root? && q.idx == 0 && i == 0 then false
         else IsPos(q)
  }

  /** What entry i of the table at p leads to. */
  function Child(p: Path, i: nat): Path
  {
    if p.Root? && i >= 256 then Sub(Root(Shared), i)
    else if p.Sub? && p.up.Root? && p.idx == 0 && i == 0 then Sub(Sub(Root(Shared), 0), 0)
    else Sub(p, i)
  }

  /** p lies at or below q. */
  predicate Below(p: Path, q: Path)
  {
    p == q || (p.Sub? && Below(p.up, q))
  }

  lemma {:induction false} BelowSpace(p: Path, q: Path)
    requires Below(p, q)
    ensures SpaceOf(p) == SpaceOf(q) && Depth(q) <= Depth(p)
  {
    if p != q { BelowSpace(p.up, q); }
  }

  /** The same position in the space rooted at d. */
  function Move(p: Path, d: nat): (r: Path)
    ensures Depth(r) == Depth(p)
    ensures SpaceOf(r) == Private(d)
  {
    match p
    case Root(_) => Root(Private(d))
    case Sub(q, i) => Sub(Move(q, d), i)
  }

  /** The index functions of the four levels, and the address of a leaf. */
  function Pml4Idx(v: nat): nat { v / 0x80_0000_0000 % ENTRIES }
  function PdptIdx(v: nat): nat { v / 0x4000_0000 % ENTRIES }
  function PdIdx(v: nat): nat { v / 0x20_0000 % ENTRIES }
  function PtIdx(v: nat): nat { v / PAGE_SIZE % ENTRIES }

  function MakeVirt(i: nat, j: nat, k: nat, l: nat): nat
  {
    i * 0x80_0000_0000 + j * 0x4000_0000 + k * 0x20_0000 + l * PAGE_SIZE
  }
}
