/** What single steps of the functions of Kernel/paging.cpp do to the slots of an address space. */
module PageSteps {
  import opened Options
  import opened PageTables

  // ---- Steps of SetupPageMap --------------------------------------------------

  /** What SetNewPageMapIfNotPresent and the bit updates after it make of an entry. */
  function LinkedEntry(e: Word, child: nat, writable: bool): Word {
    e.(present := true, addr := if e.present then e.addr else child, user := true, writable := writable)
  }

  /** Entry (level, key) now leads to `child`: the frame it led to before, or a fresh zero frame if it was absent. */
  ghost predicate EntryLinked(s: World, s': World, root: nat, level: nat, key: nat, child: nat, e: Word)
    requires level < 4
  {
    && e.present && e.addr == child
    && WritesSlot(s.mem, s'.mem, root, s.owner, level, key, e)
    && (if Slot(s.mem, root, level, key).present then
          child == Slot(s.mem, root, level, key).addr && s'.free == s.free && s'.owner == s.owner
        else
          && child in s.free && s'.free == s.free - {child}
          && At(s'.mem, child) == ZeroPage()
          && s'.owner == s.owner[child := RoleOf(root, level, key)])
    && (forall f | f !in s.free && !IsTableOf(s.owner, f, root) :: At(s'.mem, f) == At(s.mem, f))
  }

  lemma ParentTable(s: World, root: nat, level: nat, key: nat)
    requires level < 4 && (level == 3 ==> key >= 256)
    requires Consistent(s, root)
    requires Node(s.mem, root, level + 1, key / 512).Some?
    ensures HasRole(s.owner, Node(s.mem, root, level + 1, key / 512).value, Table(root, level + 1, key / 512))
    ensures Node(s.mem, root, level + 1, key / 512).value !in s.free
    ensures Slot(s.mem, root, level, key) == At(s.mem, Node(s.mem, root, level + 1, key / 512).value)[key % 512]
  {
    TableOwnedAt(s.mem, root, s.owner, level + 1, key / 512);
  }

  lemma SetEntryTwice(mem: Memory, table: nat, i: nat, e: Word, e': Word)
    requires i < 512
    ensures At(SetEntry(mem, table, i, e), table)[i] == e
    ensures SetEntry(SetEntry(mem, table, i, e), table, i, e') == SetEntry(mem, table, i, e')
  {
    assert At(mem, table)[i := e][i := e'] == At(mem, table)[i := e'];
  }

  lemma EntryWritten(s: World, s': World, table: nat, root: nat, level: nat, key: nat, child: nat, e: Word)
    requires level < 4 && (level == 3 ==> key >= 256)
    requires Consistent(s, root)
    requires e.present && e.addr == child
    requires Node(s.mem, root, level + 1, key / 512) == Some(table)
    requires Slot(s.mem, root, level, key).present ==>
      child == Slot(s.mem, root, level, key).addr && s'.free == s.free && s'.owner == s.owner
    requires !Slot(s.mem, root, level, key).present ==>
      child in s.free && s'.free == s.free - {child} && s'.owner == s.owner[child := RoleOf(root, level, key)]
    requires s'.mem == SetEntry(if Slot(s.mem, root, level, key).present then s.mem else s.mem[child := ZeroPage()],
                                table, key % 512, e)
    ensures EntryLinked(s, s', root, level, key, child, e)
  {
    ParentTable(s, root, level, key);
    if level > 0 {
      TableOwnedAt(s.mem, root, s.owner, level, key);
    }
    hide TablesOwned, RolesExact;
    assert Node(s.mem, root, level, key) ==
      if Slot(s.mem, root, level, key).present then Some(Slot(s.mem, root, level, key).addr) else None;
    hide Slot, Node;
    assert s.free !! s.owner.Keys && IsTableOf(s.owner, table, root);
    hide Consistent, HasRole, WritesEntry, SetEntry, At, IsTableOf, ZeroPage;
    if Slot(s.mem, root, level, key).present {
      WrittenOnly(s.mem, s'.mem, root, s.owner, s.free, table, key % 512, e);
    } else {
      WrittenFresh(s.mem, s'.mem, root, s.owner, s.free, table, key % 512, e, child);
    }
  }

  lemma WrittenOnly(mem: Memory, mem': Memory, root: nat, owner: Owners, free: set<nat>, table: nat, i: nat, e: Word)
    requires i < 512 && mem' == SetEntry(mem, table, i, e) && IsTableOf(owner, table, root)
    ensures WritesEntry(mem, mem', root, owner, table, i, e)
    ensures forall f | f !in free && !IsTableOf(owner, f, root) :: At(mem', f) == At(mem, f)
  {
  }

  lemma WrittenFresh(mem: Memory, mem': Memory, root: nat, owner: Owners, free: set<nat>, table: nat, i: nat, e: Word,
                     child: nat)
    requires i < 512 && child in free && free !! owner.Keys && IsTableOf(owner, table, root)
    requires mem' == SetEntry(mem[child := ZeroPage()], table, i, e)
    ensures WritesEntry(mem, mem', root, owner, table, i, e) && At(mem', child) == ZeroPage()
    ensures forall f | f !in free && !IsTableOf(owner, f, root) :: At(mem', f) == At(mem, f)
  {
  }

  lemma TablesAfter(s: World, s': World, root: nat, level: nat, key: nat, e: Word)
    requires level < 4
    requires TablesOwned(s.mem, root, s.owner)
    requires SlotUpdated(s.mem, s'.mem, root, level, key, e)
    requires forall f | f in s.owner && s.owner[f].Table? :: f in s'.owner && s'.owner[f] == s.owner[f]
    requires level > 0 && e.present ==> HasRole(s'.owner, e.addr, Table(root, level, key))
    ensures TablesOwned(s'.mem, root, s'.owner)
  {
    hide Slot, TablesOwned;
    assert TablesOwned(s'.mem, root, s'.owner) by {
      forall l: nat, k: nat | 1 <= l <= 4 && Node(s'.mem, root, l, k).Some?
        ensures HasRole(s'.owner, Node(s'.mem, root, l, k).value, Table(root, l, k))
      {
        TableOwnedAt(s.mem, root, s.owner, l, k);
        if l < 4 {
          assert Slot(s'.mem, root, l, k) == if l == level && k == key then e else Slot(s.mem, root, l, k);
        }
      }
      TablesOwnedIntro(s'.mem, root, s'.owner);
    }
  }

  lemma TablesOwnedIntro(mem: Memory, root: nat, owner: Owners)
    requires forall l: nat, k: nat | 1 <= l <= 4 && Node(mem, root, l, k).Some? ::
      HasRole(owner, Node(mem, root, l, k).value, Table(root, l, k))
    ensures TablesOwned(mem, root, owner)
  {
  }

  lemma RolesAfter(s: World, s': World, root: nat, level: nat, key: nat, e: Word)
    requires level < 4
    requires RolesExact(s.mem, root, s.owner)
    requires SlotUpdated(s.mem, s'.mem, root, level, key, e)
    requires forall f | f in s'.owner && s'.owner[f].root == root ::
      if s'.owner[f] == RoleOf(root, level, key) then e.present && e.addr == f
      else f in s.owner && s.owner[f] == s'.owner[f]
    ensures RolesExact(s'.mem, root, s'.owner)
  {
    hide Slot;
    forall f | f in s'.owner && s'.owner[f].root == root
      ensures PlaysRole(s'.mem, f, s'.owner[f])
    {
      var role := s'.owner[f];
      var l, k := if role.Leaf? then 0 else role.level, role.key;
      if role == RoleOf(root, level, key) {
        assert Slot(s'.mem, root, level, key) == e;
      } else {
        assert PlaysRole(s.mem, f, role);
        if l < 4 {
          assert Slot(s'.mem, root, l, k) == if l == level && k == key then e else Slot(s.mem, root, l, k);
        }
      }
    }
  }

  lemma RoleUnique(mem: Memory, root: nat, owner: Owners, level: nat, key: nat)
    requires level < 4 && RolesExact(mem, root, owner)
    ensures forall f | f in owner && owner[f] == RoleOf(root, level, key) ::
      Slot(mem, root, level, key).present && Slot(mem, root, level, key).addr == f
  {
    hide Slot;
    forall f | f in owner && owner[f] == RoleOf(root, level, key)
      ensures Slot(mem, root, level, key).present && Slot(mem, root, level, key).addr == f
    {
      assert PlaysRole(mem, f, owner[f]);
    }
  }

  lemma EntryStep(s: World, s': World, root: nat, level: nat, key: nat, child: nat, e: Word)
    requires level < 4
    requires Consistent(s, root)
    requires EntryLinked(s, s', root, level, key, child, e)
    ensures SlotUpdated(s.mem, s'.mem, root, level, key, e)
    ensures Consistent(s', root) && Grown(s, s', root) && NewPagesFresh(s, s', root)
    ensures Node(s'.mem, root, level, key) == Some(child)
  {
    hide Slot, WritesSlot, TablesOwned, RolesExact, At;
    SlotWritten(s.mem, s'.mem, root, s.owner, level, key, e);
    if level > 0 {
      TableOwnedAt(s.mem, root, s.owner, level, key);
    }
    TablesAfter(s, s', root, level, key, e);
    RoleUnique(s.mem, root, s.owner, level, key);
    RolesAfter(s, s', root, level, key, e);
  }

  /** On the last level the entry is the page itself. */
  lemma LeafBuilt(s: World, s': World, root: nat, key: nat, child: nat, writable: bool)
    requires Consistent(s, root)
    requires EntryLinked(s, s', root, 0, key, child, LinkedEntry(Slot(s.mem, root, 0, key), child, writable))
    ensures Built(s, s', root, 1, key, key + 1, key + 1, writable)
  {
    EntryStep(s, s', root, 0, key, child, LinkedEntry(Slot(s.mem, root, 0, key), child, writable));
  }

  /** Linking a child table and building below it builds below the parent. */
  lemma SubtreeBuilt(s0: World, s1: World, s2: World, root: nat, level: nat, key: nat, child: nat,
                     a: nat, b: nat, c: nat, writable: bool)
    requires 1 <= level < 4
    requires Consistent(s0, root)
    requires EntryLinked(s0, s1, root, level, key, child, LinkedEntry(Slot(s0.mem, root, level, key), child, true))
    requires Built(s1, s2, root, level, a, b, c, writable)
    requires First(level, key) <= a <= b <= c <= First(level, key + 1)
    requires a < c
    ensures Built(s0, s2, root, level + 1, a, b, c, writable)
  {
    var e := LinkedEntry(Slot(s0.mem, root, level, key), child, true);
    EntryStep(s0, s1, root, level, key, child, e);
    GrownTransitive(s0, s1, s2, root);
    NewPagesTransitive(s0, s1, s2, root);
    forall l: nat, k: nat | 1 <= l < 4
      ensures l < level + 1 && Touches(l, k, a, b) ==> Linked(Slot(s0.mem, root, l, k), Slot(s2.mem, root, l, k), true)
      ensures l >= level + 1 || !Touches(l, k, a, c) ==> Slot(s2.mem, root, l, k) == Slot(s0.mem, root, l, k)
      ensures Slot(s2.mem, root, l, k) == Slot(s0.mem, root, l, k)
              || Linked(Slot(s0.mem, root, l, k), Slot(s2.mem, root, l, k), true)
    {
      assert Slot(s1.mem, root, l, k) == if l == level && k == key then e else Slot(s0.mem, root, l, k);
      if l == level {
        assert Touches(l, key, a, c);
      }
    }
  }

  lemma KeyFacts(level: nat, addr: LinearAddress)
    requires 1 <= level <= 4 && addr.Valid()
    ensures addr.Key(level - 1) % 512 == addr.Part(level) && addr.Key(level - 1) / 512 == addr.Key(level)
    ensures level == 4 ==> addr.Key(level - 1) == addr.pml4
  {
    match level
    case 1 =>
    case 2 =>
    case 3 =>
    case 4 =>
  }

  lemma KeyAtTop(addr: LinearAddress)
    ensures addr.Key(4) == 0 && addr.Part(1) == addr.page
  {
  }

  lemma PartBound(addr: LinearAddress, level: nat)
    requires 1 <= level <= 4 && addr.Valid()
    ensures addr.Part(level) < 512
    ensures level == 4 ==> addr.Part(level) == addr.pml4
  {
  }

  /** The indices below a level are all zero. */
  predicate LowPartsZero(addr: LinearAddress, level: nat) {
    forall i: nat | 1 <= i < level :: addr.Part(i) == 0
  }

  lemma LowParts(addr: LinearAddress, level: nat)
    requires 1 <= level <= 4 && LowPartsZero(addr, level)
    ensures level > 1 ==> addr.Part(level - 1) == 0 && LowPartsZero(addr, level - 1)
  {
  }

  lemma RoomFacts(level: nat, addr: LinearAddress)
    requires 1 <= level <= 4 && addr.Valid()
    ensures First(level - 1, addr.Key(level - 1)) <= addr.Key(0) < First(level - 1, addr.Key(level - 1) + 1)
    ensures First(level - 1, addr.Key(level - 1) + 1) <= First(level, addr.Key(level) + 1)
    ensures addr.Part(level) == 511 ==> First(level - 1, addr.Key(level - 1) + 1) == First(level, addr.Key(level) + 1)
    ensures Room(level, addr) == First(level, addr.Key(level) + 1) - addr.Key(0)
    ensures Room(level - 1, addr) == First(level - 1, addr.Key(level - 1) + 1) - addr.Key(0)
    ensures Room(0, addr) == 1
  {
    KeyBounds(level - 1, addr);
    KeyBounds(level, addr);
    KeyFacts(level, addr);
    FirstFacts(level, addr.Key(level), addr.Part(level));
    FirstFacts(level, addr.Key(level), addr.Part(level) + 1);
    assert addr.Key(level - 1) == 512 * addr.Key(level) + addr.Part(level);
    hide First, LinearAddress.Key, LinearAddress.Part;
  }

  lemma KeyBounds(level: nat, addr: LinearAddress)
    requires level <= 4 && addr.Valid()
    ensures First(level, addr.Key(level)) <= addr.Key(0) < First(level, addr.Key(level) + 1)
  {
    match level
    case 0 =>
    case 1 =>
    case 2 =>
    case 3 =>
    case 4 =>
  }

  /** Pages from addr to the end of the table that holds it on this level. */
  function Room(level: nat, addr: LinearAddress): nat
    requires level <= 4 && addr.Valid()
  {
    First(level, addr.Key(level) + 1) - addr.Key(0)
  }

  lemma PartOfSetPart(addr: LinearAddress, level: nat, value: nat, i: nat)
    requires level <= 4 && i <= 4
    ensures addr.SetPart(level, value).Part(i) == if i == level then value else addr.Part(i)
  {
  }

  // ---- Steps of CopyPageMaps --------------------------------------------------

  /** Apart from the frames of space r, and frames that were free, nothing changes. */
  ghost predicate Undisturbed(s: World, s': World, r: nat) {
    && s'.free !! s'.owner.Keys
    && (forall f | f in s.owner && s.owner[f].root != r ::
          f in s'.owner && s'.owner[f] == s.owner[f] && At(s'.mem, f) == At(s.mem, f))
    && (forall f | f in s'.owner && s'.owner[f].root != r :: f in s.owner && s.owner[f] == s'.owner[f])
    && s'.free + s'.owner.Keys == s.free + s.owner.Keys
  }

  lemma GrownUndisturbed(s: World, s': World, r: nat)
    requires Grown(s, s', r) && s.free !! s.owner.Keys && s'.free !! s'.owner.Keys
    ensures Undisturbed(s, s', r)
  {
  }

  ghost predicate SlotsKept(s: World, s': World, r: nat) {
    forall l: nat, k: nat | l < 4 :: Slot(s'.mem, r, l, k) == Slot(s.mem, r, l, k)
  }

  lemma SpaceKept(s: World, s': World, r: nat, other: nat)
    requires Consistent(s, other) && Undisturbed(s, s', r) && r != other
    ensures Consistent(s', other) && SlotsKept(s, s', other)
  {
    forall l: nat, k: nat | l < 4
      ensures Slot(s'.mem, other, l, k) == Slot(s.mem, other, l, k)
    {
      SlotsFramed(s.mem, s'.mem, other, s.owner, l, k);
    }
    hide Slot;
    forall l: nat, k: nat | 1 <= l <= 4 && Node(s'.mem, other, l, k).Some?
      ensures HasRole(s'.owner, Node(s'.mem, other, l, k).value, Table(other, l, k))
    {
      TableOwnedAt(s.mem, other, s.owner, l, k);
    }
    forall f | f in s'.owner && s'.owner[f].root == other
      ensures PlaysRole(s'.mem, f, s'.owner[f])
    {
      assert f in s.owner;
      assert PlaysRole(s.mem, f, s.owner[f]);
      if LevelOf(s.owner[f]) < 4 {
        assert Slot(s'.mem, other, LevelOf(s.owner[f]), s.owner[f].key) == Slot(s.mem, other, LevelOf(s.owner[f]), s.owner[f].key);
      }
    }
  }

  /** The first page of node (level, key) lies in [a, b). */
  ghost predicate Within(level: nat, key: nat, a: nat, b: nat) {
    a <= First(level, key) < b
  }

  /** e' is what CopyPageMaps makes of entry e: tables get a frame of their own, pages are shared read-only. */
  ghost predicate CopiedEntry(level: nat, e: Word, e': Word) {
    if !e.present then e' == ZERO
    else if level == 0 then e' == e.(writable := false)
    else e' == e.(addr := e'.addr)
  }

  /** In space r, the slots below a table of level `top` that start within [a, b) are copies of those of t. */
  ghost predicate CopiedRange(s: World, s': World, r: nat, t: nat, top: nat, a: nat, b: nat) {
    forall l: nat, k: nat | l < 4 ::
      if l < top && Within(l, k, a, b) then CopiedEntry(l, Slot(s.mem, t, l, k), Slot(s'.mem, r, l, k))
      else Slot(s'.mem, r, l, k) == Slot(s.mem, r, l, k)
  }

  /** Where memory ran out, slots are copied or still empty. */
  ghost predicate CopiedInPart(s: World, s': World, r: nat, t: nat, top: nat, a: nat, b: nat) {
    forall l: nat, k: nat | l < 4 ::
      Slot(s'.mem, r, l, k) != Slot(s.mem, r, l, k) ==>
        l < top && Within(l, k, a, b) && CopiedEntry(l, Slot(s.mem, t, l, k), Slot(s'.mem, r, l, k))
  }

  ghost predicate EmptyBelow(s: World, r: nat, top: nat, a: nat, b: nat) {
    forall l: nat, k: nat | l < top && l < 4 && Within(l, k, a, b) :: Slot(s.mem, r, l, k) == ZERO
  }

  ghost predicate OnlyTablesTaken(s: World, s': World) {
    forall f | f in s'.owner && f !in s.owner :: s'.owner[f].Table?
  }

  /** The state of both spaces while r is filled with a copy of t. */
  ghost predicate Copying(s: World, s': World, r: nat, t: nat) {
    && Consistent(s', r) && Consistent(s', t)
    && Grown(s, s', r)
    && OnlyTablesTaken(s, s')
    && (forall l: nat, k: nat | l < 4 :: Slot(s'.mem, t, l, k) == Slot(s.mem, t, l, k))
  }

  /** Entry e now maps page `key`: a frame it does not own, or a fresh one recorded for it.
      The page it mapped before, if any, was not its own. */
  ghost predicate PageRemapped(s: World, s': World, root: nat, key: nat, e: Word, fresh_frame: bool) {
    && e.present
    && WritesSlot(s.mem, s'.mem, root, s.owner, 0, key, e)
    && (forall f | HasRole(s.owner, f, Leaf(root, key)) :: false)
    && (if fresh_frame then
          e.addr in s.free && s'.free == s.free - {e.addr} && s'.owner == s.owner[e.addr := Leaf(root, key)]
        else s'.free == s.free && s'.owner == s.owner)
    && (forall f | f !in s.free && !IsTableOf(s.owner, f, root) :: At(s'.mem, f) == At(s.mem, f))
  }

  lemma RemapStep(s: World, s': World, root: nat, key: nat, e: Word, fresh_frame: bool)
    requires Consistent(s, root)
    requires PageRemapped(s, s', root, key, e, fresh_frame)
    ensures SlotUpdated(s.mem, s'.mem, root, 0, key, e)
    ensures Consistent(s', root) && Grown(s, s', root)
  {
    hide Slot, Node, WritesSlot, TablesOwned, RolesExact, SlotUpdated, At;
    SlotWritten(s.mem, s'.mem, root, s.owner, 0, key, e);
    TablesAfter(s, s', root, 0, key, e);
    assert forall f | f in s.owner && s.owner[f] == Leaf(root, key) :: HasRole(s.owner, f, Leaf(root, key));
    RolesAfter(s, s', root, 0, key, e);
  }

  lemma PageWritten(s: World, s': World, table: nat, root: nat, key: nat, e: Word)
    requires Consistent(s, root) && e.present
    requires Node(s.mem, root, 1, key / 512) == Some(table)
    requires !Slot(s.mem, root, 0, key).present
    requires s'.free == s.free && s'.owner == s.owner
    requires s'.mem == SetEntry(s.mem, table, key % 512, e)
    ensures PageRemapped(s, s', root, key, e, false)
  {
    ParentTable(s, root, 0, key);
    RoleUnique(s.mem, root, s.owner, 0, key);
    hide Slot, Node, TablesOwned, RolesExact;
    assert WritesEntry(s.mem, s'.mem, root, s.owner, table, key % 512, e);
  }

  /** A page entry of r now names the frame that the same page of t names, read-only. */
  lemma SharePage(s: World, s': World, r: nat, t: nat, key: nat)
    requires r != t && Consistent(s, r) && Consistent(s, t)
    requires PageRemapped(s, s', r, key, Slot(s.mem, t, 0, key).(writable := false), false)
    ensures Copying(s, s', r, t)
    ensures SlotUpdated(s.mem, s'.mem, r, 0, key, Slot(s.mem, t, 0, key).(writable := false))
  {
    RemapStep(s, s', r, key, Slot(s.mem, t, 0, key).(writable := false), false);
    GrownUndisturbed(s, s', r);
    SpaceKept(s, s', r, t);
  }

  lemma CopyingNothing(s: World, r: nat, t: nat, top: nat, a: nat)
    requires Consistent(s, r) && Consistent(s, t)
    ensures Copying(s, s, r, t) && CopiedRange(s, s, r, t, top, a, a) && CopiedInPart(s, s, r, t, top, a, a)
  {
  }

  lemma CopyingTransitive(s0: World, s1: World, s2: World, r: nat, t: nat)
    requires Consistent(s0, r)
    requires Copying(s0, s1, r, t) && Copying(s1, s2, r, t)
    ensures Copying(s0, s2, r, t)
  {
    hide Slot, SpaceOk;
    GrownTransitive(s0, s1, s2, r);
    forall f | f in s2.owner && f !in s0.owner
      ensures s2.owner[f].Table?
    {
      assert f in s1.owner ==> s2.owner[f] == s1.owner[f];
    }
  }

  /** A table of r now has its own copy of the table entry of t. */
  lemma CopyTable(s: World, s': World, r: nat, t: nat, level: nat, key: nat, child: nat)
    requires 1 <= level < 4 && r != t && Consistent(s, r) && Consistent(s, t)
    requires !Slot(s.mem, r, level, key).present
    requires EntryLinked(s, s', r, level, key, child, Slot(s.mem, t, level, key).(addr := child))
    ensures Copying(s, s', r, t)
    ensures SlotUpdated(s.mem, s'.mem, r, level, key, Slot(s.mem, t, level, key).(addr := child))
    ensures Node(s'.mem, r, level, key) == Some(child)
  {
    hide SpaceOk, WritesSlot, Slot, At;
    EntryStep(s, s', r, level, key, child, Slot(s.mem, t, level, key).(addr := child));
    GrownUndisturbed(s, s', r);
    SpaceKept(s, s', r, t);
  }

  lemma CopiedUnion(s0: World, s1: World, s2: World, r: nat, t: nat, top: nat, a: nat, b: nat, c: nat)
    requires Copying(s0, s1, r, t) && a <= b <= c
    requires CopiedRange(s0, s1, r, t, top, a, b) && CopiedRange(s1, s2, r, t, top, b, c)
    ensures CopiedRange(s0, s2, r, t, top, a, c)
  {
    hide Slot, Consistent, First;
  }

  lemma CopiedInPartUnion(s0: World, s1: World, s2: World, r: nat, t: nat, top: nat, a: nat, b: nat, c: nat, d: nat)
    requires Copying(s0, s1, r, t) && a <= b <= c <= d
    requires EmptyBelow(s0, r, top, a, d)
    requires CopiedRange(s0, s1, r, t, top, a, b) && CopiedInPart(s1, s2, r, t, top, b, c)
    ensures CopiedInPart(s0, s2, r, t, top, a, d)
  {
    hide Slot, Consistent, First;
  }

  /** A copied table entry and the copied subtree below it. */
  lemma CopiedSubtree(s0: World, s1: World, s2: World, r: nat, t: nat, level: nat, key: nat, child: nat)
    requires 1 <= level < 4 && Copying(s0, s1, r, t)
    requires Slot(s0.mem, t, level, key).present
    requires SlotUpdated(s0.mem, s1.mem, r, level, key, Slot(s0.mem, t, level, key).(addr := child))
    requires CopiedRange(s1, s2, r, t, level, First(level, key), First(level, key + 1))
    ensures CopiedRange(s0, s2, r, t, level + 1, First(level, key), First(level, key + 1))
  {
    hide Slot, Consistent;
  }

  lemma CopiedSubtreeInPart(s0: World, s1: World, s2: World, r: nat, t: nat, level: nat, key: nat, child: nat)
    requires 1 <= level < 4 && Copying(s0, s1, r, t)
    requires Slot(s0.mem, t, level, key).present
    requires SlotUpdated(s0.mem, s1.mem, r, level, key, Slot(s0.mem, t, level, key).(addr := child))
    requires CopiedInPart(s1, s2, r, t, level, First(level, key), First(level, key + 1))
    ensures CopiedInPart(s0, s2, r, t, level + 1, First(level, key), First(level, key + 1))
  {
    hide Slot, Consistent;
  }

  /** Nothing hangs below an absent entry. */
  lemma {:induction false} AbsentBelow(mem: Memory, root: nat, level: nat, key: nat, l: nat, k: nat)
    requires l < level < 4 && !Slot(mem, root, level, key).present
    requires Within(l, k, First(level, key), First(level, key + 1))
    ensures Slot(mem, root, l, k) == ZERO
    decreases level - l
  {
    ParentWithin(level, key, l, k);
    if l + 1 < level {
      AbsentBelow(mem, root, level, key, l + 1, k / 512);
    }
  }

  lemma ParentWithin(level: nat, key: nat, l: nat, k: nat)
    requires l < level <= 4 && Within(l, k, First(level, key), First(level, key + 1))
    ensures Within(l + 1, k / 512, First(level, key), First(level, key + 1))
    ensures l + 1 == level ==> k / 512 == key
  {
    FirstCompose(l + 1, level - l - 1, key);
    FirstCompose(l + 1, level - l - 1, key + 1);
    BelowParent(l, k, First(level - l - 1, key), First(level - l - 1, key + 1));
  }

  lemma FirstCompose(level: nat, d: nat, key: nat)
    requires level + d <= 4
    ensures First(level, First(d, key)) == First(level + d, key)
  {
  }

  lemma BelowParent(l: nat, k: nat, a: nat, b: nat)
    requires l < 4 && Within(l, k, First(l + 1, a), First(l + 1, b))
    ensures a <= k / 512 < b && Within(l + 1, k / 512, First(l + 1, a), First(l + 1, b))
  {
    match l
    case 0 =>
    case 1 =>
    case 2 =>
    case 3 =>
  }

  /** An absent entry of t has nothing to copy. */
  lemma CopiedAbsent(s: World, r: nat, t: nat, level: nat, key: nat)
    requires level < 4 && Consistent(s, r) && Consistent(s, t)
    requires !Slot(s.mem, t, level, key).present
    requires EmptyBelow(s, r, level + 1, First(level, key), First(level, key + 1))
    ensures CopiedRange(s, s, r, t, level + 1, First(level, key), First(level, key + 1))
  {
    hide Slot, Consistent;
    forall l: nat, k: nat | l < 4 && l < level + 1 && Within(l, k, First(level, key), First(level, key + 1))
      ensures CopiedEntry(l, Slot(s.mem, t, l, k), Slot(s.mem, r, l, k))
    {
      assert Slot(s.mem, r, l, k) == ZERO;
      if l < level {
        AbsentBelow(s.mem, t, level, key, l, k);
      }
    }
  }

  lemma FirstFacts(level: nat, key: nat, i: nat)
    requires 1 <= level <= 4
    ensures First(level, key + 1) == First(level - 1, 512 * key + 512)
    ensures First(level, key) == First(level - 1, 512 * key)
    ensures i <= 512 ==> First(level - 1, 512 * key + i) <= First(level, key + 1)
  {
    match level
    case 1 =>
    case 2 =>
    case 3 =>
    case 4 =>
  }

  lemma FirstMonotone(level: nat, k: nat, k': nat)
    requires level <= 4 && k <= k'
    ensures First(level, k) <= First(level, k')
  {
    match level
    case 0 =>
    case 1 =>
    case 2 =>
    case 3 =>
    case 4 =>
  }

  lemma FirstIncreasing(level: nat, key: nat)
    requires level <= 4
    ensures First(level, key) < First(level, key + 1)
  {
  }

  /** What holds in CopyPageMaps when it comes to entry i of the tables named by (part, key). */
  lemma CopyReady(s0: World, s: World, r: nat, t: nat, part: nat, key: nat, start: nat, i: nat)
    requires 1 <= part <= 4 && start <= i < 512 && Copying(s0, s, r, t)
    requires CopiedRange(s0, s, r, t, part, First(part - 1, 512 * key + start), First(part - 1, 512 * key + i))
    requires EmptyBelow(s0, r, part, First(part - 1, 512 * key + start), First(part, key + 1))
    ensures Consistent(s, r) && Consistent(s, t)
    ensures Node(s.mem, r, part, key) == Node(s0.mem, r, part, key)
    ensures Node(s.mem, t, part, key) == Node(s0.mem, t, part, key)
    ensures !Slot(s.mem, r, part - 1, 512 * key + i).present
    ensures EmptyBelow(s, r, part, First(part - 1, 512 * key + i), First(part - 1, 512 * key + i + 1))
    ensures First(part - 1, 512 * key + start) <= First(part - 1, 512 * key + i) < First(part - 1, 512 * key + i + 1) <= First(part, key + 1)
  {
    FirstMonotone(part - 1, 512 * key + start, 512 * key + i);
    FirstIncreasing(part - 1, 512 * key + i);
    FirstFacts(part, key, i + 1);
    hide Slot, First, Consistent;
    if part < 4 {
      assert Slot(s.mem, r, part, key) == Slot(s0.mem, r, part, key);
    }
    forall l: nat, k: nat | l < part && l < 4 && Within(l, k, First(part - 1, 512 * key + i), First(part - 1, 512 * key + i + 1))
      ensures Slot(s.mem, r, l, k) == ZERO
    {
      assert Within(l, k, First(part - 1, 512 * key + start), First(part, key + 1));
    }
    assert Within(part - 1, 512 * key + i, First(part - 1, 512 * key + i), First(part - 1, 512 * key + i + 1));
  }

  /** The loop of CopyPageMaps advances by one entry. */
  lemma CopyAdvances(s0: World, s: World, s': World, r: nat, t: nat, part: nat, a: nat, b: nat, c: nat)
    requires Consistent(s0, r) && a <= b <= c
    requires Copying(s0, s, r, t) && Copying(s, s', r, t)
    requires CopiedRange(s0, s, r, t, part, a, b) && CopiedRange(s, s', r, t, part, b, c)
    ensures Copying(s0, s', r, t) && CopiedRange(s0, s', r, t, part, a, c)
  {
    hide Slot, Copying, CopiedRange;
    CopyingTransitive(s0, s, s', r, t);
    CopiedUnion(s0, s, s', r, t, part, a, b, c);
  }

  lemma CopyStops(s0: World, s: World, s': World, r: nat, t: nat, part: nat, a: nat, b: nat, c: nat, d: nat)
    requires Consistent(s0, r) && a <= b <= c <= d
    requires EmptyBelow(s0, r, part, a, d)
    requires Copying(s0, s, r, t) && Copying(s, s', r, t)
    requires CopiedRange(s0, s, r, t, part, a, b) && CopiedInPart(s, s', r, t, part, b, c)
    ensures Copying(s0, s', r, t) && CopiedInPart(s0, s', r, t, part, a, d)
  {
    hide Slot, Copying, CopiedRange, CopiedInPart, EmptyBelow;
    CopyingTransitive(s0, s, s', r, t);
    CopiedInPartUnion(s0, s, s', r, t, part, a, b, c, d);
  }

  lemma SharedOne(s: World, s': World, r: nat, t: nat, key: nat)
    requires Slot(s.mem, t, 0, key).present
    requires SlotUpdated(s.mem, s'.mem, r, 0, key, Slot(s.mem, t, 0, key).(writable := false))
    ensures CopiedRange(s, s', r, t, 1, First(0, key), First(0, key + 1))
  {
    hide Slot;
  }

  /** Below a new table entry everything is still empty. */
  lemma EmptyBelowChild(s: World, s': World, r: nat, level: nat, key: nat, e: Word)
    requires 1 <= level < 4
    requires EmptyBelow(s, r, level + 1, First(level, key), First(level, key + 1))
    requires SlotUpdated(s.mem, s'.mem, r, level, key, e)
    ensures EmptyBelow(s', r, level, First(level - 1, 512 * key), First(level, key + 1))
  {
    FirstFacts(level, key, 0);
    hide Slot, First;
  }

  lemma EntryAt(s: World, root: nat, level: nat, key: nat)
    requires level < 4 && Node(s.mem, root, level + 1, key / 512).Some? && (level == 3 ==> key >= 256)
    ensures Slot(s.mem, root, level, key) == At(s.mem, Node(s.mem, root, level + 1, key / 512).value)[key % 512]
  {
  }

  lemma NodeKept(s: World, s': World, r: nat, t: nat, level: nat, key: nat)
    requires level < 4 && Copying(s, s', r, t)
    requires Slot(s.mem, t, level, key).present
    ensures Node(s'.mem, t, level, key) == Some(Slot(s.mem, t, level, key).addr)
  {
    hide Consistent;
    assert Slot(s'.mem, t, level, key) == Slot(s.mem, t, level, key);
  }

  lemma CopyingConsistent(s: World, s': World, r: nat, t: nat)
    requires Copying(s, s', r, t)
    ensures Consistent(s', r) && Consistent(s', t)
  {
  }

  lemma NothingCopied(s: World, r: nat, t: nat, top: nat, a: nat, b: nat)
    requires Consistent(s, r) && Consistent(s, t)
    ensures Copying(s, s, r, t) && CopiedInPart(s, s, r, t, top, a, b)
  {
  }

  // ---- Steps of CleanPageMap --------------------------------------------------

  /** The key invariant of an application's space: an entry is writable exactly when the frame
      behind it belongs to this very node, and an absent entry is a zero word. */
  ghost predicate WritableIffOwned(s: World, root: nat) {
    forall l: nat, k: nat | l < 4 :: OwnedEntry(s, root, l, k)
  }

  ghost predicate OwnedEntry(s: World, root: nat, level: nat, key: nat)
    requires level < 4
  {
    var e := Slot(s.mem, root, level, key);
    if e.present then e.writable <==> HasRole(s.owner, e.addr, RoleOf(root, level, key)) else e == ZERO
  }

  function LevelOf(role: Role): nat {
    if role.Leaf? then 0 else role.level
  }

  /** The frame serves a node below a table of level `top` that starts within [a, b). */
  ghost predicate ServesRange(owner: Owners, f: nat, root: nat, top: nat, a: nat, b: nat) {
    f in owner && owner[f].root == root && LevelOf(owner[f]) < top && Within(LevelOf(owner[f]), owner[f].key, a, b)
  }

  /** All that CleanPageMap does between two states: the range is unmapped, and exactly the frames
      that served it are free again. */
  ghost predicate Released(s: World, s': World, root: nat, top: nat, a: nat, b: nat) {
    && Consistent(s', root) && WritableIffOwned(s', root)
    && (forall f :: f in s'.owner <==> f in s.owner && !ServesRange(s.owner, f, root, top, a, b))
    && (forall f | f in s'.owner :: s'.owner[f] == s.owner[f])
    && (forall f :: f in s'.free <==> f in s.free || ServesRange(s.owner, f, root, top, a, b))
    && (forall f | !IsTableOf(s.owner, f, root) :: At(s'.mem, f) == At(s.mem, f))
    && (forall l: nat, k: nat | l < 4 ::
          Slot(s'.mem, root, l, k) == if l < top && Within(l, k, a, b) then ZERO else Slot(s.mem, root, l, k))
  }

  /** An entry with nothing left below it is cleared, and its frame is freed if it was writable. */
  ghost predicate EntryCleared(s: World, s': World, table: nat, root: nat, level: nat, key: nat)
    requires level < 4
  {
    var e := Slot(s.mem, root, level, key);
    && Node(s.mem, root, level + 1, key / 512) == Some(table)
    && s'.mem == SetEntry(s.mem, table, key % 512, ZERO)
    && s'.free == (if e.writable then s.free + {e.addr} else s.free)
    && s'.owner == (if e.writable then s.owner - {e.addr} else s.owner)
  }

  lemma ChildPageZero(s: World, root: nat, level: nat, key: nat)
    requires 1 <= level < 4 && Slot(s.mem, root, level, key).present
    requires forall k: nat | k / 512 == key :: Slot(s.mem, root, level - 1, k) == ZERO
    ensures ChildPage(s.mem, Slot(s.mem, root, level, key)) == ZeroPage()
  {
    var f := Slot(s.mem, root, level, key).addr;
    forall i | 0 <= i < 512
      ensures At(s.mem, f)[i] == ZeroPage()[i]
    {
      var k := 512 * key + i;
      assert k / 512 == key && k % 512 == i;
      assert Node(s.mem, root, level, k / 512) == Some(f);
      assert Slot(s.mem, root, level - 1, k) == At(s.mem, f)[i];
    }
  }

  lemma ClearStep(s: World, s': World, table: nat, root: nat, level: nat, key: nat)
    requires level < 4 && (level == 3 ==> key >= 256)
    requires Consistent(s, root) && WritableIffOwned(s, root)
    requires Slot(s.mem, root, level, key).present
    requires level > 0 ==> ChildPage(s.mem, Slot(s.mem, root, level, key)) == ZeroPage()
    requires EntryCleared(s, s', table, root, level, key)
    ensures SlotUpdated(s.mem, s'.mem, root, level, key, ZERO)
    ensures Consistent(s', root)
  {
    var e := Slot(s.mem, root, level, key);
    ParentTable(s, root, level, key);
    assert OwnedEntry(s, root, level, key);
    if level > 0 {
      TableOwnedAt(s.mem, root, s.owner, level, key);
    }
    RoleUnique(s.mem, root, s.owner, level, key);
    hide Slot, TablesOwned, RolesExact, WritableIffOwned;
    assert WritesEntry(s.mem, s'.mem, root, s.owner, table, key % 512, ZERO);
    assert ChildPage(s'.mem, ZERO) == ZeroPage();
    SlotWritten(s.mem, s'.mem, root, s.owner, level, key, ZERO);
    ClearedTables(s, s', root, level, key);
    RolesAfter(s, s', root, level, key, ZERO);
  }

  lemma ClearedTables(s: World, s': World, root: nat, level: nat, key: nat)
    requires level < 4 && TablesOwned(s.mem, root, s.owner)
    requires SlotUpdated(s.mem, s'.mem, root, level, key, ZERO)
    requires forall f | f in s.owner && s.owner[f] != RoleOf(root, level, key) :: f in s'.owner && s'.owner[f] == s.owner[f]
    ensures TablesOwned(s'.mem, root, s'.owner)
  {
    hide Slot, TablesOwned;
    forall l: nat, k: nat | 1 <= l <= 4 && Node(s'.mem, root, l, k).Some?
      ensures HasRole(s'.owner, Node(s'.mem, root, l, k).value, Table(root, l, k))
    {
      TableOwnedAt(s.mem, root, s.owner, l, k);
      if l < 4 {
        assert Slot(s'.mem, root, l, k) == if l == level && k == key then ZERO else Slot(s.mem, root, l, k);
      }
    }
    TablesOwnedIntro(s'.mem, root, s'.owner);
  }

  lemma ReleasedNothing(s: World, root: nat, top: nat, a: nat)
    requires top <= 4 && Consistent(s, root) && WritableIffOwned(s, root)
    ensures Released(s, s, root, top, a, a)
  {
    hide Slot, Consistent, WritableIffOwned;
  }

  /** Below an absent entry there is nothing to release. */
  lemma ReleasedAbsent(s: World, root: nat, level: nat, key: nat)
    requires level < 4 && Consistent(s, root) && WritableIffOwned(s, root)
    requires !Slot(s.mem, root, level, key).present
    ensures Released(s, s, root, level + 1, First(level, key), First(level, key + 1))
  {
    hide Slot, TablesOwned, RolesExact;
    assert OwnedEntry(s, root, level, key);
    forall l: nat, k: nat | l < level + 1 && Within(l, k, First(level, key), First(level, key + 1))
      ensures Slot(s.mem, root, l, k) == ZERO
    {
      if l < level {
        AbsentBelow(s.mem, root, level, key, l, k);
      } else {
        FirstInjective(level, key, k);
      }
    }
    var top, a, b := level + 1, First(level, key), First(level, key + 1);
    forall f
      ensures !ServesRange(s.owner, f, root, top, a, b)
    {
      if ServesRange(s.owner, f, root, top, a, b) {
        RoleUnique(s.mem, root, s.owner, LevelOf(s.owner[f]), s.owner[f].key);
        RoleShape(s, root, f);
        assert false;
      }
    }
  }

  lemma FirstInjective(level: nat, key: nat, k: nat)
    requires level <= 4
    ensures Within(level, k, First(level, key), First(level, key + 1)) <==> k == key
  {
    match level
    case 0 =>
    case 1 =>
    case 2 =>
    case 3 =>
    case 4 =>
  }

  lemma RoleShape(s: World, root: nat, f: nat)
    requires Consistent(s, root) && f in s.owner && s.owner[f].root == root
    ensures s.owner[f] == RoleOf(root, LevelOf(s.owner[f]), s.owner[f].key) && LevelOf(s.owner[f]) <= 4
  {
    hide TablesOwned, Slot;
    assert PlaysRole(s.mem, f, s.owner[f]);
  }

  lemma ReleasedUnion(s0: World, s1: World, s2: World, root: nat, top: nat, a: nat, b: nat, c: nat)
    requires top <= 4 && a <= b <= c
    requires Released(s0, s1, root, top, a, b) && Released(s1, s2, root, top, b, c)
    ensures Released(s0, s2, root, top, a, c)
  {
    hide Slot, Consistent, WritableIffOwned, First;
  }

  /** The subtree below an entry has been released, then the entry itself is cleared. */
  lemma ReleasedSubtree(s0: World, s1: World, s2: World, table: nat, root: nat, level: nat, key: nat)
    requires level < 4 && (level == 3 ==> key >= 256)
    requires Consistent(s0, root) && WritableIffOwned(s0, root)
    requires Slot(s0.mem, root, level, key).present
    requires level > 0 ==> Released(s0, s1, root, level, First(level, key), First(level, key + 1))
    requires level == 0 ==> s1 == s0
    requires EntryCleared(s1, s2, table, root, level, key)
    ensures Released(s0, s2, root, level + 1, First(level, key), First(level, key + 1))
  {
    hide Slot, Consistent, First;
    assert Slot(s1.mem, root, level, key) == Slot(s0.mem, root, level, key);
    if level > 0 {
      SubtreeGone(s0, s1, root, level, key);
    }
    ClearStep(s1, s2, table, root, level, key);
    ReleasedEntry(s0, s1, s2, table, root, level, key);
  }

  lemma SubtreeGone(s0: World, s1: World, root: nat, level: nat, key: nat)
    requires 1 <= level < 4 && Slot(s1.mem, root, level, key).present
    requires Released(s0, s1, root, level, First(level, key), First(level, key + 1))
    ensures ChildPage(s1.mem, Slot(s1.mem, root, level, key)) == ZeroPage()
  {
    forall k: nat | k / 512 == key
      ensures Slot(s1.mem, root, level - 1, k) == ZERO
    {
      ChildWithin(level, key, k);
    }
    ChildPageZero(s1, root, level, key);
  }

  lemma ChildWithin(level: nat, key: nat, k: nat)
    requires 1 <= level <= 4 && k / 512 == key
    ensures Within(level - 1, k, First(level, key), First(level, key + 1))
  {
    match level
    case 1 =>
    case 2 =>
    case 3 =>
    case 4 =>
  }

  lemma ReleasedEntry(s0: World, s1: World, s2: World, table: nat, root: nat, level: nat, key: nat)
    requires level < 4 && (level == 3 ==> key >= 256)
    requires Consistent(s0, root) && WritableIffOwned(s0, root)
    requires Consistent(s1, root) && WritableIffOwned(s1, root) && Consistent(s2, root)
    requires Slot(s0.mem, root, level, key).present
    requires level > 0 ==> Released(s0, s1, root, level, First(level, key), First(level, key + 1))
    requires level == 0 ==> s1 == s0
    requires EntryCleared(s1, s2, table, root, level, key)
    requires SlotUpdated(s1.mem, s2.mem, root, level, key, ZERO)
    ensures Released(s0, s2, root, level + 1, First(level, key), First(level, key + 1))
  {
    hide Slot, TablesOwned, RolesExact, First;
    var e := Slot(s0.mem, root, level, key);
    ParentTable(s1, root, level, key);
    FirstInjective(level, key, key);
    assert Slot(s1.mem, root, level, key) == e;
    assert OwnedEntry(s1, root, level, key);
    var top, a, b := level + 1, First(level, key), First(level, key + 1);
    forall f
      ensures ServesRange(s0.owner, f, root, top, a, b) <==>
        (level > 0 && ServesRange(s0.owner, f, root, level, a, b)) || (e.writable && f == e.addr)
    {
      ServesSplit(s0, root, level, key, f);
      assert OwnedEntry(s0, root, level, key);
    }
    forall l: nat, k: nat | l < 4
      ensures OwnedEntry(s2, root, l, k)
    {
      assert OwnedEntry(s1, root, l, k);
      assert Slot(s2.mem, root, l, k) == if l == level && k == key then ZERO else Slot(s1.mem, root, l, k);
    }
    forall l: nat, k: nat | l < 4
      ensures Slot(s2.mem, root, l, k) ==
        if l < level + 1 && Within(l, k, First(level, key), First(level, key + 1)) then ZERO else Slot(s0.mem, root, l, k)
    {
      FirstInjective(level, key, k);
    }
  }

  lemma ServesSplit(s: World, root: nat, level: nat, key: nat, f: nat)
    requires level < 4 && Consistent(s, root)
    ensures ServesRange(s.owner, f, root, level + 1, First(level, key), First(level, key + 1)) <==>
      (level > 0 && ServesRange(s.owner, f, root, level, First(level, key), First(level, key + 1)))
      || HasRole(s.owner, f, RoleOf(root, level, key))
    ensures HasRole(s.owner, f, RoleOf(root, level, key)) ==>
      Slot(s.mem, root, level, key).present && Slot(s.mem, root, level, key).addr == f
  {
    hide Slot, TablesOwned, RolesExact, First;
    RoleUnique(s.mem, root, s.owner, level, key);
    if f in s.owner && s.owner[f].root == root {
      RoleShape(s, root, f);
      FirstInjective(level, key, s.owner[f].key);
    }
  }

  /** The first page below entry i of the table (level, key). */
  function EntryStart(level: nat, key: nat, i: nat): nat
    requires 1 <= level
  {
    First(level - 1, 512 * key + i)
  }

  lemma EntryStartFacts(level: nat, key: nat)
    requires 1 <= level <= 4
    ensures EntryStart(level, key, 0) == First(level, key)
    ensures EntryStart(level, key, 512) == First(level, key + 1)
  {
    FirstFacts(level, key, 512);
  }

  /** What holds in CleanPageMap when it comes to entry i of the table named by (level, key). */
  lemma CleanReady(s0: World, s: World, root: nat, level: nat, key: nat, start: nat, i: nat, k: nat)
    requires 1 <= level <= 4 && start <= i < 512 && k == 512 * key + i
    requires Released(s0, s, root, level, EntryStart(level, key, start), EntryStart(level, key, i))
    ensures Consistent(s, root) && WritableIffOwned(s, root)
    ensures Node(s.mem, root, level, k / 512) == Node(s0.mem, root, level, key)
    ensures k % 512 == i
  {
    assert k / 512 == key;
    hide Slot, First, Consistent, WritableIffOwned;
    if level < 4 {
      assert Slot(s.mem, root, level, key) == Slot(s0.mem, root, level, key);
    }
  }

  lemma CleanAdvances(s0: World, s: World, s': World, root: nat, level: nat, key: nat,
                      start: nat, i: nat, k: nat, next: nat)
    requires 1 <= level <= 4 && start <= i < 512 && k == 512 * key + i && next == i + 1
    requires Released(s0, s, root, level, EntryStart(level, key, start), EntryStart(level, key, i))
    requires Released(s, s', root, level, First(level - 1, k), First(level - 1, k + 1))
    ensures Released(s0, s', root, level, EntryStart(level, key, start), EntryStart(level, key, next))
  {
    hide Released;
    FirstMonotone(level - 1, 512 * key + start, 512 * key + i);
    FirstIncreasing(level - 1, 512 * key + i);
    ReleasedUnion(s0, s, s', root, level, EntryStart(level, key, start), EntryStart(level, key, i), EntryStart(level, key, i + 1));
  }

  lemma ReleasedKeepsParent(s: World, s': World, root: nat, level: nat, key: nat, a: nat, b: nat)
    requires level < 4 && Released(s, s', root, level, a, b)
    ensures Node(s'.mem, root, level + 1, key / 512) == Node(s.mem, root, level + 1, key / 512)
    ensures Slot(s'.mem, root, level, key) == Slot(s.mem, root, level, key)
  {
    hide Slot, First, Consistent, WritableIffOwned;
    if level < 3 {
      assert Slot(s'.mem, root, level + 1, key / 512) == Slot(s.mem, root, level + 1, key / 512);
    }
  }

  /** A mapped page has tables all the way up. */
  lemma {:induction false} PathPresent(mem: Memory, root: nat, addr: LinearAddress, l: nat)
    requires l <= 4 && addr.Valid() && Slot(mem, root, 0, addr.Key(0)).present
    ensures Node(mem, root, l, addr.Key(l)).Some?
  {
    if l > 0 {
      PathPresent(mem, root, addr, l - 1);
      KeyFacts(l, addr);
      hide LinearAddress.Key;
      assert Slot(mem, root, l - 1, addr.Key(l - 1)).present;
      assert Node(mem, root, l, addr.Key(l - 1) / 512).Some?;
    }
  }

  lemma NodeOfSlot(s: World, root: nat, level: nat, key: nat)
    requires level < 4
    ensures Node(s.mem, root, level, key) ==
      if Slot(s.mem, root, level, key).present then Some(Slot(s.mem, root, level, key).addr) else None
  {
  }
}
