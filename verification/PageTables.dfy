/** The four-level page tables of Kernel/paging.{hpp,cpp}, seen through physical memory.

    Every word of physical memory can be read as a page-map entry, so a frame
    is a page of 512 words whether it serves as a table or as page content.
    A node of the tree of an address space is named by its level (4 is the
    PML4, 1 a page table, 0 a mapped page) and a key: the index path that
    leads to it, read as a base-512 number. The key of a mapped page is its
    virtual page number.
*/
module PageTables {
  import opened Options

  /** A 64-bit word as `PageMapEntry` splits it; `rest` stands for the bits the kernel never names. */
  datatype Word = Word(present: bool, writable: bool, user: bool, addr: nat, rest: nat)

  const ZERO := Word(false, false, false, 0, 0)

  type Page = p: seq<Word> | |p| == 512 witness seq(512, _ => Word(false, false, false, 0, 0))

  function ZeroPage(): (p: Page)
    ensures forall i | 0 <= i < 512 :: p[i] == ZERO
  {
    seq(512, _ => ZERO)
  }

  type Memory = map<nat, Page>

  function At(mem: Memory, f: nat): Page {
    if f in mem then mem[f] else ZeroPage()
  }

  /** The entry that points to node (level, key) of the space rooted at `root`, or
      the zero word when its table is missing. Only the upper half of the PML4
      (indices 256 to 511) belongs to an application's space. */
  function Slot(mem: Memory, root: nat, level: nat, key: nat): Word
    requires level < 4
    decreases 4 - level, 0
  {
    var table := Node(mem, root, level + 1, key / 512);
    if table.None? || (level == 3 && key < 256) then ZERO else At(mem, table.value)[key % 512]
  }

  function Node(mem: Memory, root: nat, level: nat, key: nat): Option<nat>
    requires level <= 4
    decreases 4 - level, 1
  {
    if level == 4 then
      if key == 0 then Some(root) else None
    else
      var e := Slot(mem, root, level, key);
      if e.present then Some(e.addr) else None
  }

  // ---- Linear addresses -------------------------------------------------------

  /** `LinearAddress4Level`: four nine-bit indices above the page offset. */
  datatype LinearAddress = LinearAddress(offset: nat, page: nat, dir: nat, pdp: nat, pml4: nat) {
    ghost predicate Valid() {
      offset < 4096 && page < 512 && dir < 512 && pdp < 512 && pml4 < 512
    }

    function Part(level: nat): nat {
      match level
      case 0 => offset
      case 1 => page
      case 2 => dir
      case 3 => pdp
      case 4 => pml4
      case _ => 0
    }

    function SetPart(level: nat, value: nat): LinearAddress {
      match level
      case 0 => this.(offset := value)
      case 1 => this.(page := value)
      case 2 => this.(dir := value)
      case 3 => this.(pdp := value)
      case 4 => this.(pml4 := value)
      case _ => this
    }

    /** The key of the node of a level on the way to this address. */
    function Key(level: nat): nat
      requires level <= 4
    {
      match level
      case 0 => ((pml4 * 512 + pdp) * 512 + dir) * 512 + page
      case 1 => (pml4 * 512 + pdp) * 512 + dir
      case 2 => pml4 * 512 + pdp
      case 3 => pml4
      case 4 => 0
    }
  }

  /** The first virtual page below node (level, key). */
  function First(level: nat, key: nat): nat {
    match level
    case 0 => key
    case 1 => 512 * key
    case 2 => 262144 * key
    case 3 => 134217728 * key
    case _ => 68719476736 * key
  }

  /** Node (level, key) lies above some page of [a, b). */
  ghost predicate Touches(level: nat, key: nat, a: nat, b: nat) {
    a < b && First(level, key) < b && a < First(level, key + 1)
  }

  /** What an allocated frame is used for. */
  datatype Role =
    | Table(root: nat, level: nat, key: nat)
    | Leaf(root: nat, key: nat)

  function RoleOf(root: nat, level: nat, key: nat): Role {
    if level == 0 then Leaf(root, key) else Table(root, level, key)
  }

  type Owners = map<nat, Role>

  ghost predicate HasRole(owner: Owners, f: nat, role: Role) {
    f in owner && owner[f] == role
  }

  ghost predicate IsTableOf(owner: Owners, f: nat, root: nat) {
    f in owner && owner[f].Table? && owner[f].root == root
  }

  /** Each table of the space has a frame of its own, recorded in `owner`. */
  ghost predicate TablesOwned(mem: Memory, root: nat, owner: Owners) {
    forall level: nat, key: nat | 1 <= level <= 4 && Node(mem, root, level, key).Some? ::
      HasRole(owner, Node(mem, root, level, key).value, Table(root, level, key))
  }

  ghost predicate PlaysRole(mem: Memory, f: nat, role: Role) {
    match role
    case Table(root, level, key) => 1 <= level <= 4 && Node(mem, root, level, key) == Some(f)
    case Leaf(root, key) => Node(mem, root, 0, key) == Some(f)
  }

  /** Every frame recorded for the space is in use there. */
  ghost predicate RolesExact(mem: Memory, root: nat, owner: Owners) {
    forall f | f in owner && owner[f].root == root :: PlaysRole(mem, f, owner[f])
  }

  ghost predicate SpaceOk(mem: Memory, root: nat, owner: Owners) {
    TablesOwned(mem, root, owner) && RolesExact(mem, root, owner)
  }

  // ---- One entry ---------------------------------------------------------------

  ghost function ChildPage(mem: Memory, e: Word): Page {
    if e.present then At(mem, e.addr) else ZeroPage()
  }

  ghost predicate WritesEntry(mem: Memory, mem': Memory, root: nat, owner: Owners, table: nat, i: nat, e: Word)
    requires i < 512
  {
    && At(mem', table) == At(mem, table)[i := e]
    && (forall f | IsTableOf(owner, f, root) && f != table :: At(mem', f) == At(mem, f))
  }

  /** From mem to mem' only the entry of (level, key) changes in the tables of this space, and
      what the entry points to looks the same as before (an absent child counts as a zero page). */
  ghost predicate WritesSlot(mem: Memory, mem': Memory, root: nat, owner: Owners, level: nat, key: nat, e: Word)
    requires level < 4
  {
    && (level == 3 ==> 256 <= key)
    && Node(mem, root, level + 1, key / 512).Some?
    && WritesEntry(mem, mem', root, owner, Node(mem, root, level + 1, key / 512).value, key % 512, e)
    && (level > 0 ==> ChildPage(mem', e) == ChildPage(mem, Slot(mem, root, level, key)))
  }

  ghost predicate SlotUpdated(mem: Memory, mem': Memory, root: nat, level: nat, key: nat, e: Word)
    requires level < 4
  {
    forall l: nat, k: nat | l < 4 ::
      Slot(mem', root, l, k) == if l == level && k == key then e else Slot(mem, root, l, k)
  }

  /** Writing one entry changes exactly one slot of the space, whatever level it is on. */
  lemma {:induction false} SlotWritten(mem: Memory, mem': Memory, root: nat, owner: Owners,
                                       level: nat, key: nat, e: Word)
    requires level < 4
    requires TablesOwned(mem, root, owner)
    requires WritesSlot(mem, mem', root, owner, level, key, e)
    ensures SlotUpdated(mem, mem', root, level, key, e)
  {
    forall l: nat, k: nat | l < 4
      ensures Slot(mem', root, l, k) == if l == level && k == key then e else Slot(mem, root, l, k)
    {
      SlotWrittenAt(mem, mem', root, owner, level, key, e, l, k);
    }
  }

  lemma TableOwnedAt(mem: Memory, root: nat, owner: Owners, level: nat, key: nat)
    requires 1 <= level <= 4
    requires TablesOwned(mem, root, owner)
    ensures Node(mem, root, level, key).Some? ==>
      HasRole(owner, Node(mem, root, level, key).value, Table(root, level, key))
  {
  }

  lemma {:induction false} SlotWrittenAt(mem: Memory, mem': Memory, root: nat, owner: Owners,
                                         level: nat, key: nat, e: Word, l: nat, k: nat)
    requires level < 4 && l < 4
    requires TablesOwned(mem, root, owner)
    requires WritesSlot(mem, mem', root, owner, level, key, e)
    ensures Slot(mem', root, l, k) == if l == level && k == key then e else Slot(mem, root, l, k)
    decreases 4 - l
  {
    hide TablesOwned;
    var t := Node(mem, root, level + 1, key / 512).value;
    TableOwnedAt(mem, root, owner, level + 1, key / 512);
    TableOwnedAt(mem, root, owner, l + 1, k / 512);
    if l < 3 {
      SlotWrittenAt(mem, mem', root, owner, level, key, e, l + 1, k / 512);
    }
    if l + 1 == level && k / 512 == key {
      // The parent is the rewritten entry: it shows the same child page as before.
      assert At(mem, t)[key % 512] == Slot(mem, root, level, key);
    } else {
      assert Node(mem', root, l + 1, k / 512) == Node(mem, root, l + 1, k / 512);
      if Node(mem, root, l + 1, k / 512).Some? {
        var p := Node(mem, root, l + 1, k / 512).value;
        if p == t {
          assert l == level && k / 512 == key / 512;
          assert k % 512 == key % 512 ==> k == key;
        } else {
          assert At(mem', p) == At(mem, p) by { assert IsTableOf(owner, p, root); }
        }
      }
    }
  }

  /** A space does not notice writes to frames that are none of its tables. */
  lemma {:induction false} SlotsFramed(mem: Memory, mem': Memory, root: nat, owner: Owners, l: nat, k: nat)
    requires l < 4
    requires TablesOwned(mem, root, owner)
    requires forall f | IsTableOf(owner, f, root) :: At(mem', f) == At(mem, f)
    ensures Slot(mem', root, l, k) == Slot(mem, root, l, k)
    decreases 4 - l
  {
    if l < 3 {
      SlotsFramed(mem, mem', root, owner, l + 1, k / 512);
    }
    if Node(mem, root, l + 1, k / 512).Some? {
      assert HasRole(owner, Node(mem, root, l + 1, k / 512).value, Table(root, l + 1, k / 512));
    }
  }

  function SetEntry(mem: Memory, table: nat, i: nat, e: Word): Memory
    requires i < 512
  {
    mem[table := At(mem, table)[i := e]]
  }

  // ---- Growing a space ----------------------------------------------------------

  /** Memory, the frames the allocator has free, and the use of the others. */
  datatype World = World(mem: Memory, free: set<nat>, owner: Owners)

  ghost predicate Consistent(s: World, root: nat) {
    SpaceOk(s.mem, root, s.owner) && s.free !! s.owner.Keys
  }

  /** Frames taken from the allocator are recorded for this space; nothing else is written but its tables. */
  ghost predicate Grown(s: World, s': World, root: nat) {
    && s'.free <= s.free
    && s'.owner.Keys == s.owner.Keys + (s.free - s'.free)
    && (forall f | f in s.owner :: s'.owner[f] == s.owner[f])
    && (forall f | f in s'.owner && f !in s.owner :: s'.owner[f].root == root)
    && (forall f | f !in s.free && !IsTableOf(s.owner, f, root) :: At(s'.mem, f) == At(s.mem, f))
  }

  /** Page k has a zeroed frame recorded for it and for nothing else. */
  ghost predicate FreshPage(s: World, root: nat, k: nat) {
    && HasRole(s.owner, Slot(s.mem, root, 0, k).addr, Leaf(root, k))
    && At(s.mem, Slot(s.mem, root, 0, k).addr) == ZeroPage()
  }

  ghost predicate NewPagesFresh(s: World, s': World, root: nat) {
    forall k: nat | !Slot(s.mem, root, 0, k).present && Slot(s'.mem, root, 0, k).present :: FreshPage(s', root, k)
  }

  /** An entry before and after SetupPageMap went through it. */
  ghost predicate Linked(e: Word, e': Word, writable: bool) {
    && e'.present && e'.user && e'.writable == writable
    && e'.rest == e.rest
    && (e.present ==> e'.addr == e.addr)
  }

  /** Below a table of level `top`, exactly the pages [a, b) are mapped; tables are linked for those
      pages and, where an allocation failed half-way, perhaps for page b as well (then c == b + 1). */
  ghost predicate Mapped(mem: Memory, mem': Memory, root: nat, top: nat, a: nat, b: nat, c: nat, writable: bool) {
    && (forall k: nat ::
          if a <= k < b then Linked(Slot(mem, root, 0, k), Slot(mem', root, 0, k), writable)
          else Slot(mem', root, 0, k) == Slot(mem, root, 0, k))
    && (forall l: nat, k: nat | 1 <= l < 4 ::
          && (l < top && Touches(l, k, a, b) ==> Linked(Slot(mem, root, l, k), Slot(mem', root, l, k), true))
          && (l >= top || !Touches(l, k, a, c) ==> Slot(mem', root, l, k) == Slot(mem, root, l, k))
          && (Slot(mem', root, l, k) == Slot(mem, root, l, k)
              || Linked(Slot(mem, root, l, k), Slot(mem', root, l, k), true)))
  }

  /** All that SetupPageMap does to a space between two states. */
  ghost predicate Built(s: World, s': World, root: nat, top: nat, a: nat, b: nat, c: nat, writable: bool) {
    && Consistent(s', root)
    && Grown(s, s', root)
    && NewPagesFresh(s, s', root)
    && Mapped(s.mem, s'.mem, root, top, a, b, c, writable)
  }

  lemma GrownTransitive(s0: World, s1: World, s2: World, root: nat)
    requires s0.free !! s0.owner.Keys
    requires Grown(s0, s1, root) && Grown(s1, s2, root)
    ensures Grown(s0, s2, root)
  {
    forall f | f !in s0.free && !IsTableOf(s0.owner, f, root)
      ensures At(s2.mem, f) == At(s0.mem, f)
    {
      assert f in s1.owner ==> f in s0.owner;
    }
  }

  lemma NewPagesTransitive(s0: World, s1: World, s2: World, root: nat)
    requires s1.free !! s1.owner.Keys
    requires Grown(s1, s2, root)
    requires forall k: nat | Slot(s1.mem, root, 0, k).present :: Slot(s2.mem, root, 0, k).addr == Slot(s1.mem, root, 0, k).addr
    requires NewPagesFresh(s0, s1, root) && NewPagesFresh(s1, s2, root)
    ensures NewPagesFresh(s0, s2, root)
  {
    forall k: nat | !Slot(s0.mem, root, 0, k).present && Slot(s2.mem, root, 0, k).present
      ensures FreshPage(s2, root, k)
    {
      if Slot(s1.mem, root, 0, k).present {
        assert FreshPage(s1, root, k);
      }
    }
  }

  lemma MappedTransitive(m0: Memory, m1: Memory, m2: Memory, root: nat, top: nat,
                         a: nat, b: nat, d: nat, e: nat, w: bool)
    requires Mapped(m0, m1, root, top, a, b, b, w) && Mapped(m1, m2, root, top, b, d, e, w)
    requires a <= b <= d <= e
    ensures Mapped(m0, m2, root, top, a, d, e, w)
  {
    hide Slot, First;
    forall l: nat, k: nat | 1 <= l < 4
      ensures l < top && Touches(l, k, a, d) ==> Linked(Slot(m0, root, l, k), Slot(m2, root, l, k), true)
      ensures l >= top || !Touches(l, k, a, e) ==> Slot(m2, root, l, k) == Slot(m0, root, l, k)
      ensures Slot(m2, root, l, k) == Slot(m0, root, l, k)
              || Linked(Slot(m0, root, l, k), Slot(m2, root, l, k), true)
    {
      TouchesUnion(l, k, a, b, d, e);
    }
  }

  lemma TouchesUnion(l: nat, k: nat, a: nat, b: nat, d: nat, e: nat)
    requires l <= 4 && a <= b <= d <= e
    ensures Touches(l, k, a, d) <==> Touches(l, k, a, b) || Touches(l, k, b, d)
    ensures Touches(l, k, a, b) || Touches(l, k, b, e) ==> Touches(l, k, a, e)
  {
  }

  lemma BuiltNothing(s: World, root: nat, top: nat, a: nat, w: bool)
    requires Consistent(s, root)
    ensures Built(s, s, root, top, a, a, a, w)
  {
  }

  lemma BuiltConsistent(s: World, s': World, root: nat, top: nat, a: nat, b: nat, c: nat, w: bool)
    requires Built(s, s', root, top, a, b, c, w)
    ensures Consistent(s', root)
  {
  }

  lemma BuiltLoosely(s: World, s': World, root: nat, top: nat, a: nat, b: nat, c: nat, d: nat, w: bool)
    requires Built(s, s', root, top, a, b, c, w) && b <= c <= d
    ensures Built(s, s', root, top, a, b, d, w)
  {
  }

  /** The table that was built below stays where it was. */
  lemma {:induction false} BuiltKeepsTop(s: World, s': World, root: nat, top: nat, level: nat, key: nat, a: nat,
                                         b: nat, c: nat, w: bool)
    requires 1 <= top <= level <= 4
    requires Built(s, s', root, top, a, b, c, w)
    ensures Node(s'.mem, root, level, key) == Node(s.mem, root, level, key)
  {
    if level < 4 {
      assert Slot(s'.mem, root, level, key) == Slot(s.mem, root, level, key);
    }
  }

  /** Two consecutive ranges make one. */
  lemma BuiltTransitive(s0: World, s1: World, s2: World, root: nat, top: nat, a: nat, b: nat, d: nat, e: nat, w: bool)
    requires Consistent(s0, root)
    requires Built(s0, s1, root, top, a, b, b, w) && Built(s1, s2, root, top, b, d, e, w)
    requires a <= b <= d <= e
    ensures Built(s0, s2, root, top, a, d, e, w)
  {
    GrownTransitive(s0, s1, s2, root);
    NewPagesTransitive(s0, s1, s2, root);
    MappedTransitive(s0.mem, s1.mem, s2.mem, root, top, a, b, d, e, w);
  }
}
