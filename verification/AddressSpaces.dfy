/** Application address spaces that share the pages of a template: what keeps them apart. */
module AddressSpaces {
  import opened Options
  import opened PageTables
  import opened PageSteps

  /** A cached, loaded program: it owns everything it maps, and its pages are read-only. */
  ghost predicate TemplateOk(s: World, t: nat) {
    && Consistent(s, t)
    && forall l: nat, k: nat | l < 4 :: TemplateEntry(s, t, l, k)
  }

  ghost predicate TemplateEntry(s: World, t: nat, l: nat, k: nat)
    requires l < 4
  {
    var e := Slot(s.mem, t, l, k);
    if e.present then e.user && (e.writable <==> l > 0) && HasRole(s.owner, e.addr, RoleOf(t, l, k)) else e == ZERO
  }

  /** An application's space over template t: writable entries are its own, read-only pages are those of t. */
  ghost predicate AppOk(s: World, r: nat, t: nat) {
    && r != t
    && Consistent(s, r) && WritableIffOwned(s, r)
    && (forall l: nat, k: nat | l < 4 :: Slot(s.mem, r, l, k).present ==> Slot(s.mem, r, l, k).user)
    && (forall k: nat :: SharedPage(s, r, t, k))
  }

  ghost predicate SharedPage(s: World, r: nat, t: nat, k: nat) {
    Slot(s.mem, r, 0, k).present && !Slot(s.mem, r, 0, k).writable ==>
      Slot(s.mem, t, 0, k).present && Slot(s.mem, r, 0, k).addr == Slot(s.mem, t, 0, k).addr
  }

  /** What a program reads at virtual page k. */
  function ReadPage(mem: Memory, r: nat, k: nat): Option<Page> {
    var e := Slot(mem, r, 0, k);
    if e.present then Some(At(mem, e.addr)) else None
  }

  /** The access check of the processor for user mode: every level must allow it (Intel SDM Vol. 3A, section 4.6). */
  predicate UserMay(mem: Memory, r: nat, l: nat, k: nat, write: bool)
    decreases 4 - l
  {
    l >= 4 ||
    (var e := Slot(mem, r, l, k);
     e.present && e.user && (write ==> e.writable) && UserMay(mem, r, l + 1, k / 512, write))
  }

  /** In an application's space the leaf entry alone decides. */
  lemma {:induction false} LeafDecides(s: World, r: nat, t: nat, l: nat, k: nat, write: bool)
    requires AppOk(s, r, t) && l < 4
    ensures UserMay(s.mem, r, l, k, write) <==>
      Slot(s.mem, r, l, k).present && (write ==> Slot(s.mem, r, l, k).writable)
    decreases 4 - l
  {
    if l < 3 {
      LeafDecides(s, r, t, l + 1, k / 512, write);
    }
    var e := Slot(s.mem, r, l, k);
    if e.present && l < 3 {
      assert Node(s.mem, r, l + 1, k / 512).Some?;
      TableOwnedAt(s.mem, r, s.owner, l + 1, k / 512);
      assert OwnedEntry(s, r, l + 1, k / 512);
    }
  }

  // ---- What other spaces see -------------------------------------------------

  lemma UndisturbedTransitive(s0: World, s1: World, s2: World, r: nat)
    requires Undisturbed(s0, s1, r) && Undisturbed(s1, s2, r)
    ensures Undisturbed(s0, s2, r)
  {
  }

  lemma ReleasedUndisturbed(s: World, s': World, r: nat, a: nat, b: nat)
    requires Consistent(s, r) && Released(s, s', r, 4, a, b)
    ensures Undisturbed(s, s', r)
  {
    hide SpaceOk, WritableIffOwned, Within, Slot;
  }

  ghost predicate PagesKept(s: World, s': World, r: nat) {
    forall k: nat :: ReadPage(s'.mem, r, k) == ReadPage(s.mem, r, k)
  }

  /** Page k of space r reads p now; its other pages are as before. */
  ghost predicate OnlyPage(mem: Memory, mem': Memory, r: nat, k: nat, p: Option<Page>) {
    forall k': nat :: ReadPage(mem', r, k') == if k' == k then p else ReadPage(mem, r, k')
  }

  lemma TemplateKept(s: World, s': World, r: nat, t: nat)
    requires TemplateOk(s, t) && Undisturbed(s, s', r) && r != t
    ensures TemplateOk(s', t) && SlotsKept(s, s', t) && PagesKept(s, s', t)
  {
    SpaceKept(s, s', r, t);
    hide Slot, Consistent;
    forall l: nat, k: nat | l < 4
      ensures TemplateEntry(s', t, l, k)
    {
      assert TemplateEntry(s, t, l, k);
      assert Slot(s'.mem, t, l, k) == Slot(s.mem, t, l, k);
    }
    forall k: nat
      ensures ReadPage(s'.mem, t, k) == ReadPage(s.mem, t, k)
    {
      assert TemplateEntry(s, t, 0, k);
      assert Slot(s'.mem, t, 0, k) == Slot(s.mem, t, 0, k);
    }
  }

  lemma AppKept(s: World, s': World, r: nat, other: nat, t: nat)
    requires AppOk(s, other, t) && TemplateOk(s, t) && Undisturbed(s, s', r) && r != other && r != t
    ensures AppOk(s', other, t) && PagesKept(s, s', other)
  {
    SpaceKept(s, s', r, other);
    TemplateKept(s, s', r, t);
    hide Slot, Consistent;
    forall l: nat, k: nat | l < 4
      ensures OwnedEntry(s', other, l, k)
      ensures Slot(s'.mem, other, l, k).present ==> Slot(s'.mem, other, l, k).user
    {
      assert OwnedEntry(s, other, l, k);
      assert Slot(s'.mem, other, l, k) == Slot(s.mem, other, l, k);
    }
    forall k: nat
      ensures SharedPage(s', other, t, k) && ReadPage(s'.mem, other, k) == ReadPage(s.mem, other, k)
    {
      assert OwnedEntry(s, other, 0, k) && SharedPage(s, other, t, k) && TemplateEntry(s, t, 0, k);
      assert Slot(s'.mem, other, 0, k) == Slot(s.mem, other, 0, k) && Slot(s'.mem, t, 0, k) == Slot(s.mem, t, 0, k);
    }
  }

  /** Every frame in use belongs to a space whose PML4 is in use too. */
  ghost predicate RootsOwned(s: World) {
    forall f | f in s.owner :: HasRole(s.owner, s.owner[f].root, Table(s.owner[f].root, 4, 0))
  }

  lemma RootsStayOwned(s: World, s': World, r: nat)
    requires RootsOwned(s) && Undisturbed(s, s', r) && Consistent(s', r)
    ensures RootsOwned(s')
  {
    TableOwnedAt(s'.mem, r, s'.owner, 4, 0);
    hide SpaceOk;
    forall f | f in s'.owner
      ensures HasRole(s'.owner, s'.owner[f].root, Table(s'.owner[f].root, 4, 0))
    {
      if s'.owner[f].root != r {
        assert HasRole(s.owner, s.owner[f].root, Table(s.owner[f].root, 4, 0));
      }
    }
  }

  /** All spaces at once: `apps` maps each application's space to its template. */
  ghost predicate AllOk(s: World, apps: map<nat, nat>, templates: set<nat>) {
    && s.free !! s.owner.Keys
    && RootsOwned(s)
    && (forall t | t in templates :: TemplateOk(s, t))
    && (forall r | r in apps :: r !in templates && apps[r] in templates && AppOk(s, r, apps[r]))
  }

  /** Everything any program but r reads is as before, and so are the templates, tables included. */
  ghost predicate OthersUnchanged(s: World, s': World, apps: map<nat, nat>, templates: set<nat>, r: nat) {
    && (forall q | q in apps && q != r :: PagesKept(s, s', q))
    && (forall t | t in templates :: SlotsKept(s, s', t) && PagesKept(s, s', t))
  }

  lemma OthersKept(s: World, s': World, apps: map<nat, nat>, templates: set<nat>, r: nat)
    requires AllOk(s, apps, templates) && Undisturbed(s, s', r) && Consistent(s', r)
    requires r !in templates
    ensures r in apps && AppOk(s', r, apps[r]) ==> AllOk(s', apps, templates)
    ensures AllOk(s', apps - {r}, templates)
    ensures OthersUnchanged(s, s', apps, templates, r)
  {
    RootsStayOwned(s, s', r);
    hide AppOk, TemplateOk, Undisturbed, PagesKept, SlotsKept, RootsOwned;
    forall t | t in templates
      ensures TemplateOk(s', t) && SlotsKept(s, s', t) && PagesKept(s, s', t)
    {
      TemplateKept(s, s', r, t);
    }
    forall q | q in apps && q != r
      ensures AppOk(s', q, apps[q]) && PagesKept(s, s', q)
    {
      AppKept(s, s', r, q, apps[q]);
    }
    assert s'.free !! s'.owner.Keys by { UndisturbedDisjoint(s, s', r); }
  }

  lemma UndisturbedDisjoint(s: World, s': World, r: nat)
    requires Undisturbed(s, s', r)
    ensures s'.free !! s'.owner.Keys
  {
  }

  // ---- Mapping more pages -------------------------------------------------------

  /** SetupPageMaps with writable pages keeps the ownership invariant exactly when no page of the range is shared. */
  lemma OwnershipAfterSetup(s: World, s': World, r: nat, t: nat, a: nat, b: nat)
    requires AppOk(s, r, t) && TemplateOk(s, t)
    requires Built(s, s', r, 4, a, b, b, true)
    ensures WritableIffOwned(s', r) <==>
      forall k: nat | a <= k < b && Slot(s.mem, r, 0, k).present :: Slot(s.mem, r, 0, k).writable
  {
    hide Slot, Consistent;
    if forall k: nat | a <= k < b && Slot(s.mem, r, 0, k).present :: Slot(s.mem, r, 0, k).writable {
      forall l: nat, k: nat | l < 4
        ensures OwnedEntry(s', r, l, k)
      {
        OwnedAfterSetup(s, s', r, t, a, b, b, l, k);
      }
    } else {
      var k: nat :| a <= k < b && Slot(s.mem, r, 0, k).present && !Slot(s.mem, r, 0, k).writable;
      assert OwnedEntry(s, r, 0, k);
      PageAllocated(s, r, t, k);
      assert !OwnedEntry(s', r, 0, k);
    }
  }

  /** Every page a program maps has an allocated frame. */
  lemma PageAllocated(s: World, r: nat, t: nat, k: nat)
    requires AppOk(s, r, t) && TemplateOk(s, t)
    ensures Slot(s.mem, r, 0, k).present ==> Slot(s.mem, r, 0, k).addr in s.owner
    ensures Slot(s.mem, r, 0, k).present ==> s.owner[Slot(s.mem, r, 0, k).addr] in {Leaf(r, k), Leaf(t, k)}
  {
    hide Slot, Consistent;
    assert OwnedEntry(s, r, 0, k) && SharedPage(s, r, t, k) && TemplateEntry(s, t, 0, k);
  }

  lemma OwnedAfterSetup(s: World, s': World, r: nat, t: nat, a: nat, b: nat, c: nat, l: nat, k: nat)
    requires l < 4
    requires AppOk(s, r, t) && TemplateOk(s, t)
    requires Built(s, s', r, 4, a, b, c, true)
    requires l == 0 && a <= k < b && Slot(s.mem, r, 0, k).present ==> Slot(s.mem, r, 0, k).writable
    ensures OwnedEntry(s', r, l, k)
  {
    assert OwnedEntry(s, r, l, k);
    if l == 0 {
      hide Slot, RolesExact, TablesOwned, TemplateOk;
      PageAllocated(s, r, t, k);
      if !Slot(s.mem, r, 0, k).present && Slot(s'.mem, r, 0, k).present {
        assert FreshPage(s', r, k);
      }
    } else {
      TableOwnedAt(s.mem, r, s.owner, l, k);
      TableOwnedAt(s'.mem, r, s'.owner, l, k);
      hide Slot, RolesExact, TablesOwned, TemplateOk;
      assert Slot(s'.mem, r, l, k) == Slot(s.mem, r, l, k) || Linked(Slot(s.mem, r, l, k), Slot(s'.mem, r, l, k), true);
    }
  }

  /** After SetupPageMaps on pages that were absent the space is in order again, and only those pages are new. */
  lemma AppAfterSetup(s: World, s': World, r: nat, t: nat, a: nat, b: nat, c: nat)
    requires AppOk(s, r, t) && TemplateOk(s, t)
    requires Built(s, s', r, 4, a, b, c, true)
    requires forall k: nat | a <= k < b :: !Slot(s.mem, r, 0, k).present
    ensures AppOk(s', r, t) && TemplateOk(s', t) && Undisturbed(s, s', r)
    ensures forall k: nat :: ReadPage(s'.mem, r, k) == if a <= k < b then Some(ZeroPage()) else ReadPage(s.mem, r, k)
  {
    GrownUndisturbed(s, s', r);
    TemplateKept(s, s', r, t);
    hide Slot, Consistent;
    forall l: nat, k: nat | l < 4
      ensures OwnedEntry(s', r, l, k) && (Slot(s'.mem, r, l, k).present ==> Slot(s'.mem, r, l, k).user)
    {
      OwnedAfterSetup(s, s', r, t, a, b, c, l, k);
      assert Slot(s'.mem, r, l, k) == Slot(s.mem, r, l, k) || Slot(s'.mem, r, l, k).user;
    }
    forall k: nat
      ensures SharedPage(s', r, t, k)
      ensures ReadPage(s'.mem, r, k) == if a <= k < b then Some(ZeroPage()) else ReadPage(s.mem, r, k)
    {
      SetupPage(s, s', r, t, a, b, c, k);
    }
  }

  lemma SetupPage(s: World, s': World, r: nat, t: nat, a: nat, b: nat, c: nat, k: nat)
    requires AppOk(s, r, t) && TemplateOk(s, t) && SlotsKept(s, s', t)
    requires Built(s, s', r, 4, a, b, c, true)
    requires a <= k < b ==> !Slot(s.mem, r, 0, k).present
    ensures SharedPage(s', r, t, k)
    ensures ReadPage(s'.mem, r, k) == if a <= k < b then Some(ZeroPage()) else ReadPage(s.mem, r, k)
  {
    assert SharedPage(s, r, t, k);
    PageAllocated(s, r, t, k);
    hide Slot, Consistent, TemplateOk;
    assert Slot(s'.mem, t, 0, k) == Slot(s.mem, t, 0, k);
    if a <= k < b {
      assert FreshPage(s', r, k);
    }
  }

  // ---- Writing to a page ----------------------------------------------------------

  /** A store, or a whole page of file contents, into a page the space owns. */
  lemma AppAfterStore(s: World, s': World, r: nat, t: nat, k: nat, p: Page)
    requires AppOk(s, r, t) && TemplateOk(s, t)
    requires Slot(s.mem, r, 0, k).present && Slot(s.mem, r, 0, k).writable
    requires s' == s.(mem := s.mem[Slot(s.mem, r, 0, k).addr := p])
    ensures AppOk(s', r, t) && TemplateOk(s', t) && Undisturbed(s, s', r) && SlotsKept(s, s', r)
    ensures OnlyPage(s.mem, s'.mem, r, k, Some(p))
  {
    var f := Slot(s.mem, r, 0, k).addr;
    assert OwnedEntry(s, r, 0, k);
    forall l: nat, k': nat | l < 4
      ensures Slot(s'.mem, r, l, k') == Slot(s.mem, r, l, k')
    {
      SlotsFramed(s.mem, s'.mem, r, s.owner, l, k');
    }
    AppWithSameSlots(s, s', r, t);
    TemplateKept(s, s', r, t);
    hide Slot, Consistent;
    forall k': nat
      ensures SharedPage(s', r, t, k')
      ensures ReadPage(s'.mem, r, k') == if k' == k then Some(p) else ReadPage(s.mem, r, k')
    {
      PageAllocated(s, r, t, k');
      assert SharedPage(s, r, t, k');
      assert Slot(s'.mem, r, 0, k') == Slot(s.mem, r, 0, k') && Slot(s'.mem, t, 0, k') == Slot(s.mem, t, 0, k');
    }
  }

  lemma AppWithSameSlots(s: World, s': World, r: nat, t: nat)
    requires Consistent(s, r) && WritableIffOwned(s, r)
    requires SlotsKept(s, s', r)
    requires s'.owner == s.owner && s'.free == s.free
    ensures Consistent(s', r) && WritableIffOwned(s', r)
  {
    hide Slot;
    forall l: nat, k: nat | 1 <= l <= 4 && Node(s'.mem, r, l, k).Some?
      ensures HasRole(s'.owner, Node(s'.mem, r, l, k).value, Table(r, l, k))
    {
      TableOwnedAt(s.mem, r, s.owner, l, k);
    }
    forall f | f in s'.owner && s'.owner[f].root == r
      ensures PlaysRole(s'.mem, f, s'.owner[f])
    {
      assert PlaysRole(s.mem, f, s.owner[f]);
      if LevelOf(s.owner[f]) < 4 {
        assert Slot(s'.mem, r, LevelOf(s.owner[f]), s.owner[f].key) == Slot(s.mem, r, LevelOf(s.owner[f]), s.owner[f].key);
      }
    }
    forall l: nat, k: nat | l < 4
      ensures OwnedEntry(s', r, l, k)
    {
      assert OwnedEntry(s, r, l, k);
    }
  }

  /** A shared page is replaced by a private copy. */
  lemma AppAfterCopy(s: World, s': World, r: nat, t: nat, k: nat, p: nat)
    requires AppOk(s, r, t) && TemplateOk(s, t)
    requires Slot(s.mem, r, 0, k).present && !Slot(s.mem, r, 0, k).writable
    requires PageRemapped(s, s', r, k, Slot(s.mem, r, 0, k).(addr := p, writable := true), true)
    requires At(s'.mem, p) == At(s.mem, Slot(s.mem, r, 0, k).addr)
    ensures AppOk(s', r, t) && TemplateOk(s', t) && Undisturbed(s, s', r) && PagesKept(s, s', r)
    ensures Slot(s'.mem, r, 0, k).present && Slot(s'.mem, r, 0, k).writable
  {
    var e := Slot(s.mem, r, 0, k).(addr := p, writable := true);
    hide Slot, Consistent, WritesSlot;
    RemapStep(s, s', r, k, e, true);
    RemapUndisturbed(s, s', r, k, e);
    TemplateKept(s, s', r, t);
    assert Slot(s'.mem, r, 0, k) == e;
    forall l: nat, k': nat | l < 4
      ensures OwnedEntry(s', r, l, k') && (Slot(s'.mem, r, l, k').present ==> Slot(s'.mem, r, l, k').user)
    {
      assert OwnedEntry(s, r, l, k') && OwnedEntry(s, r, 0, k);
      assert Slot(s'.mem, r, l, k') == if l == 0 && k' == k then e else Slot(s.mem, r, l, k');
      if l == 0 {
        PageAllocated(s, r, t, k');
      } else {
        EntryAllocated(s, r, l, k');
      }
    }
    forall k': nat
      ensures SharedPage(s', r, t, k') && ReadPage(s'.mem, r, k') == ReadPage(s.mem, r, k')
    {
      assert SharedPage(s, r, t, k');
      PageAllocated(s, r, t, k');
      assert Slot(s'.mem, r, 0, k') == if k' == k then e else Slot(s.mem, r, 0, k');
      assert Slot(s'.mem, t, 0, k') == Slot(s.mem, t, 0, k');
      PageNotFree(s, r, t, k');
    }
  }

  lemma EntryAllocated(s: World, r: nat, l: nat, k: nat)
    requires 1 <= l < 4 && Consistent(s, r)
    ensures Slot(s.mem, r, l, k).present ==> HasRole(s.owner, Slot(s.mem, r, l, k).addr, Table(r, l, k))
  {
    TableOwnedAt(s.mem, r, s.owner, l, k);
  }

  lemma PageNotFree(s: World, r: nat, t: nat, k: nat)
    requires AppOk(s, r, t) && TemplateOk(s, t)
    ensures Slot(s.mem, r, 0, k).present ==> Slot(s.mem, r, 0, k).addr !in s.free && !IsTableOf(s.owner, Slot(s.mem, r, 0, k).addr, r)
  {
    PageAllocated(s, r, t, k);
    hide Slot, SpaceOk;
  }

  lemma RemapUndisturbed(s: World, s': World, r: nat, k: nat, e: Word)
    requires Consistent(s, r) && Consistent(s', r) && Grown(s, s', r)
    ensures Undisturbed(s, s', r)
  {
    hide SpaceOk;
    GrownUndisturbed(s, s', r);
  }

  // ---- Starting and ending a program ------------------------------------------------

  /** The pages of the upper half. */
  const UPPER: nat := 34359738368
  const END: nat := 68719476736

  lemma UpperBounds()
    ensures First(3, 256) == UPPER && First(4, 1) == END
  {
  }

  lemma {:induction false} UpperOnly(mem: Memory, r: nat, l: nat, k: nat)
    requires l < 4
    ensures Slot(mem, r, l, k) != ZERO ==> Within(l, k, UPPER, END)
    decreases 4 - l
  {
    if l < 3 {
      UpperOnly(mem, r, l + 1, k / 512);
      InsideParent(l, k);
    }
  }

  lemma InsideParent(l: nat, k: nat)
    requires l < 3
    ensures Within(l + 1, k / 512, UPPER, END) ==> Within(l, k, UPPER, END)
  {
    match l
    case 0 =>
    case 1 =>
    case 2 =>
  }

  lemma {:induction false} EmptySpace(mem: Memory, r: nat, l: nat, k: nat)
    requires l < 4
    requires forall i | 256 <= i < 512 :: At(mem, r)[i] == ZERO
    ensures Slot(mem, r, l, k) == ZERO
    decreases 4 - l
  {
    if l < 3 {
      EmptySpace(mem, r, l + 1, k / 512);
    }
  }

  /** SetupPML4 makes an empty space. */
  lemma NewSpace(s: World, s': World, r: nat)
    requires s.free !! s.owner.Keys && RootsOwned(s)
    requires r in s.free && s'.free == s.free - {r} && s'.owner == s.owner[r := Table(r, 4, 0)]
    requires forall f | f != r :: At(s'.mem, f) == At(s.mem, f)
    requires forall i | 256 <= i < 512 :: At(s'.mem, r)[i] == ZERO
    ensures Consistent(s', r) && Undisturbed(s, s', r)
    ensures forall l: nat, k: nat | l < 4 :: Slot(s'.mem, r, l, k) == ZERO
    ensures forall f | f in s'.owner && s'.owner[f].root == r :: f == r
  {
    forall l: nat, k: nat | l < 4
      ensures Slot(s'.mem, r, l, k) == ZERO
    {
      EmptySpace(s'.mem, r, l, k);
    }
    forall l: nat, k: nat | 1 <= l < 4
      ensures Node(s'.mem, r, l, k).None?
    {
      assert Slot(s'.mem, r, l, k) == ZERO;
    }
    hide Slot;
    forall f | f in s.owner
      ensures s.owner[f].root != r
    {
      assert HasRole(s.owner, s.owner[f].root, Table(s.owner[f].root, 4, 0));
    }
    forall l: nat, k: nat | 1 <= l <= 4 && Node(s'.mem, r, l, k).Some?
      ensures HasRole(s'.owner, Node(s'.mem, r, l, k).value, Table(r, l, k))
    {
      assert l == 4;
    }
    assert PlaysRole(s'.mem, r, Table(r, 4, 0));
  }

  /** A full copy of a template is a program's space that reads as the template does. */
  lemma AppAfterLaunch(s: World, s': World, r: nat, t: nat)
    requires r != t && TemplateOk(s, t) && Consistent(s, r)
    requires forall l: nat, k: nat | l < 4 :: Slot(s.mem, r, l, k) == ZERO
    requires forall f | f in s.owner && s.owner[f].root == r :: f == r
    requires Copying(s, s', r, t) && CopiedRange(s, s', r, t, 4, UPPER, END)
    ensures AppOk(s', r, t) && TemplateOk(s', t) && Undisturbed(s, s', r)
    ensures forall k: nat :: ReadPage(s'.mem, r, k) == ReadPage(s.mem, t, k)
  {
    GrownUndisturbed(s, s', r);
    TemplateKept(s, s', r, t);
    forall l: nat, k: nat | l < 4
      ensures CopiedEntry(l, Slot(s.mem, t, l, k), Slot(s'.mem, r, l, k))
      ensures OwnedEntry(s', r, l, k) && (Slot(s'.mem, r, l, k).present ==> Slot(s'.mem, r, l, k).user)
    {
      UpperOnly(s.mem, t, l, k);
      LaunchedEntry(s, s', r, t, l, k);
    }
    hide Slot, Consistent;
    forall k: nat
      ensures SharedPage(s', r, t, k) && ReadPage(s'.mem, r, k) == ReadPage(s.mem, t, k)
    {
      assert CopiedEntry(0, Slot(s.mem, t, 0, k), Slot(s'.mem, r, 0, k));
      assert TemplateEntry(s, t, 0, k);
      assert Slot(s'.mem, t, 0, k) == Slot(s.mem, t, 0, k);
    }
  }

  lemma LaunchedEntry(s: World, s': World, r: nat, t: nat, l: nat, k: nat)
    requires l < 4 && r != t && TemplateOk(s, t)
    requires Copying(s, s', r, t) && CopiedRange(s, s', r, t, 4, UPPER, END)
    requires Slot(s.mem, r, l, k) == ZERO
    requires Slot(s.mem, t, l, k) != ZERO ==> Within(l, k, UPPER, END)
    requires forall f | f in s.owner && s.owner[f].root == r :: f == r
    ensures CopiedEntry(l, Slot(s.mem, t, l, k), Slot(s'.mem, r, l, k))
    ensures OwnedEntry(s', r, l, k) && (Slot(s'.mem, r, l, k).present ==> Slot(s'.mem, r, l, k).user)
  {
    if l > 0 {
      EntryAllocated(s', r, l, k);
    }
    hide Slot, SpaceOk;
    assert TemplateEntry(s, t, l, k);
  }

  /** Every frame of a space but its PML4 serves the part of the space that is cleared. */
  lemma InClearedPart(s: World, r: nat, f: nat)
    requires Consistent(s, r) && f in s.owner && s.owner[f].root == r
    ensures f == r || ServesRange(s.owner, f, r, 4, UPPER, END)
  {
    RoleShape(s, r, f);
    var l, k := LevelOf(s.owner[f]), s.owner[f].key;
    if l < 4 {
      RoleUnique(s.mem, r, s.owner, l, k);
      UpperOnly(s.mem, r, l, k);
    } else {
      assert PlaysRole(s.mem, f, s.owner[f]);
    }
  }

  lemma OtherRootsOwned(s: World, s2: World, r: nat)
    requires RootsOwned(s) && s2.owner.Keys <= s.owner.Keys
    requires forall f :: f in s2.owner <==> f in s.owner && s.owner[f].root != r
    requires forall f | f in s2.owner :: s2.owner[f] == s.owner[f]
    ensures RootsOwned(s2)
  {
    forall f | f in s2.owner
      ensures HasRole(s2.owner, s2.owner[f].root, Table(s2.owner[f].root, 4, 0))
    {
      assert HasRole(s.owner, s.owner[f].root, Table(s.owner[f].root, 4, 0));
    }
  }

  /** After CleanPageMaps and FreePML4 every frame of the space is free again, and no other. */
  lemma AfterExit(s: World, s1: World, s2: World, r: nat)
    requires Consistent(s, r) && RootsOwned(s)
    requires Released(s, s1, r, 4, UPPER, END)
    requires s2 == s1.(free := s1.free + {r}, owner := s1.owner - {r})
    ensures forall f :: f in s2.owner <==> f in s.owner && s.owner[f].root != r
    ensures forall f :: f in s2.free <==> f in s.free || (f in s.owner && s.owner[f].root == r)
    ensures Undisturbed(s, s2, r) && RootsOwned(s2)
  {
    hide *;
    RootInOwner(s, r);
    ReleasedUndisturbed(s, s1, r, UPPER, END);
    forall f | f in s.owner && s.owner[f].root == r
      ensures f == r || ServesRange(s.owner, f, r, 4, UPPER, END)
    {
      InClearedPart(s, r, f);
    }
    ExitFrames(s, s1, s2, r);
    ExitUndisturbed(s, s1, s2, r);
    OtherRootsOwned(s, s2, r);
  }

  lemma RootInOwner(s: World, r: nat)
    requires Consistent(s, r)
    ensures HasRole(s.owner, r, Table(r, 4, 0)) && r in s.owner && s.owner[r].root == r
  {
    TableOwnedAt(s.mem, r, s.owner, 4, 0);
  }

  lemma ExitFrames(s: World, s1: World, s2: World, r: nat)
    requires Released(s, s1, r, 4, UPPER, END) && r in s.owner && s.owner[r].root == r
    requires HasRole(s.owner, r, Table(r, 4, 0))
    requires s2 == s1.(free := s1.free + {r}, owner := s1.owner - {r})
    requires forall f | f in s.owner && s.owner[f].root == r :: f == r || ServesRange(s.owner, f, r, 4, UPPER, END)
    ensures s2.owner.Keys <= s.owner.Keys && forall f | f in s2.owner :: s2.owner[f] == s.owner[f]
    ensures forall f :: f in s2.owner <==> f in s.owner && s.owner[f].root != r
    ensures forall f :: f in s2.free <==> f in s.free || (f in s.owner && s.owner[f].root == r)
    ensures r in s1.owner && s1.owner[r].root == r
  {
    hide Slot, SpaceOk, WritableIffOwned, Consistent, Within;
  }

  lemma ExitUndisturbed(s: World, s1: World, s2: World, r: nat)
    requires Undisturbed(s, s1, r) && r in s1.owner && s1.owner[r].root == r
    requires s2 == s1.(free := s1.free + {r}, owner := s1.owner - {r})
    ensures Undisturbed(s, s2, r)
  {
  }

  // ---- Steps of the methods in Paging ------------------------------------------------

  /** A step of program r that leaves its own space in order leaves everything in order. */
  lemma SpaceStep(s: World, s': World, apps: map<nat, nat>, templates: set<nat>, r: nat)
    requires AllOk(s, apps, templates) && r in apps
    requires Undisturbed(s, s', r) && AppOk(s', r, apps[r])
    ensures AllOk(s', apps, templates) && OthersUnchanged(s, s', apps, templates, r)
  {
    hide AllOk, OthersUnchanged, Undisturbed;
    AllOkAt(s, apps, templates, r);
    OthersKept(s, s', apps, templates, r);
  }

  lemma AllOkAt(s: World, apps: map<nat, nat>, templates: set<nat>, r: nat)
    requires AllOk(s, apps, templates) && r in apps
    ensures r !in templates && apps[r] in templates && AppOk(s, r, apps[r]) && TemplateOk(s, apps[r])
    ensures s.free !! s.owner.Keys && RootsOwned(s) && Consistent(s, r)
  {
  }

  lemma NothingDisturbed(s: World, apps: map<nat, nat>, templates: set<nat>, r: nat)
    requires s.free !! s.owner.Keys
    ensures Undisturbed(s, s, r) && OthersUnchanged(s, s, apps, templates, r) && PagesKept(s, s, r)
  {
  }

  /** A frame that is still free shows up in no table. */
  lemma FreshWriteInvisible(s: World, mem': Memory, r: nat, p: nat, l: nat, k: nat)
    requires l <= 4 && Consistent(s, r) && p in s.free
    requires forall f | f != p :: At(mem', f) == At(s.mem, f)
    ensures l < 4 ==> Slot(mem', r, l, k) == Slot(s.mem, r, l, k)
    ensures Node(mem', r, l, k) == Node(s.mem, r, l, k)
  {
    if l < 4 {
      SlotsFramed(s.mem, mem', r, s.owner, l, k);
    }
  }

  lemma RootNode(mem: Memory, r: nat)
    ensures Node(mem, r, 4, 0) == Some(r)
  {
  }

  lemma CopyWritten(s: World, s': World, r: nat, t: nat, table: nat, k: nat, p: nat)
    requires AppOk(s, r, t) && TemplateOk(s, t)
    requires Slot(s.mem, r, 0, k).present && !Slot(s.mem, r, 0, k).writable && p in s.free
    requires Node(s.mem, r, 1, k / 512) == Some(table)
    requires s'.mem == SetEntry(s.mem[p := At(s.mem, Slot(s.mem, r, 0, k).addr)], table, k % 512,
                                Slot(s.mem, r, 0, k).(addr := p, writable := true))
    requires s'.free == s.free - {p} && s'.owner == s.owner[p := Leaf(r, k)]
    ensures PageRemapped(s, s', r, k, Slot(s.mem, r, 0, k).(addr := p, writable := true), true)
    ensures At(s'.mem, p) == At(s.mem, Slot(s.mem, r, 0, k).addr)
  {
    assert OwnedEntry(s, r, 0, k);
    ParentTable(s, r, 0, k);
    RoleUnique(s.mem, r, s.owner, 0, k);
    hide Slot, Node, TablesOwned, RolesExact, TemplateOk, WritableIffOwned;
    assert WritesEntry(s.mem, s'.mem, r, s.owner, table, k % 512, Slot(s.mem, r, 0, k).(addr := p, writable := true));
  }

  lemma OnlySpaceTwice(s0: World, s1: World, s2: World, apps: map<nat, nat>, templates: set<nat>, r: nat)
    requires Undisturbed(s0, s1, r) && Undisturbed(s1, s2, r)
    requires OthersUnchanged(s0, s1, apps, templates, r) && OthersUnchanged(s1, s2, apps, templates, r)
    ensures Undisturbed(s0, s2, r) && OthersUnchanged(s0, s2, apps, templates, r)
  {
    UndisturbedTransitive(s0, s1, s2, r);
    hide Undisturbed, PagesKept, SlotsKept;
    forall q | q in apps && q != r
      ensures PagesKept(s0, s2, q)
    {
      KeptTwice(s0, s1, s2, q);
    }
    forall t | t in templates
      ensures SlotsKept(s0, s2, t) && PagesKept(s0, s2, t)
    {
      KeptTwice(s0, s1, s2, t);
    }
  }

  lemma KeptTwice(s0: World, s1: World, s2: World, r: nat)
    ensures PagesKept(s0, s1, r) && PagesKept(s1, s2, r) ==> PagesKept(s0, s2, r)
    ensures SlotsKept(s0, s1, r) && SlotsKept(s1, s2, r) ==> SlotsKept(s0, s2, r)
  {
    hide Slot, ReadPage;
  }

  lemma KeyBelowEnd(addr: LinearAddress)
    requires addr.Valid()
    ensures addr.Key(0) + 1 <= END
  {
  }

  lemma OffsetIrrelevant(addr: LinearAddress)
    requires addr.Valid()
    ensures addr.(offset := 0).Valid() && addr.(offset := 0).pml4 == addr.pml4
    ensures addr.(offset := 0).Key(0) == addr.Key(0)
  {
  }

  lemma BuiltPage(s: World, s': World, r: nat, top: nat, a: nat, b: nat, c: nat, w: bool, k: nat)
    requires Built(s, s', r, top, a, b, c, w) && a <= k < b
    ensures Slot(s'.mem, r, 0, k).present && Slot(s'.mem, r, 0, k).writable == w
  {
    hide Slot, Consistent;
  }

  lemma NotARoot(s: World, apps: map<nat, nat>, templates: set<nat>, r: nat)
    requires AllOk(s, apps, templates) && r in s.free
    ensures r !in templates && r !in apps
  {
    if r in templates {
      TableOwnedAt(s.mem, r, s.owner, 4, 0);
    }
    if r in apps {
      TableOwnedAt(s.mem, r, s.owner, 4, 0);
    }
  }

  /** A space under construction leaves everything else in order. */
  lemma LaunchKeeps(s: World, s': World, apps: map<nat, nat>, templates: set<nat>, r: nat)
    requires AllOk(s, apps, templates) && r in s.free
    requires Undisturbed(s, s', r) && Consistent(s', r)
    ensures AllOk(s', apps, templates) && OthersUnchanged(s, s', apps, templates, r)
    ensures forall t | t in templates && AppOk(s', r, t) :: AllOk(s', apps[r := t], templates)
  {
    NotARoot(s, apps, templates, r);
    hide Undisturbed, OthersUnchanged, AppOk, TemplateOk, Consistent;
    OthersKept(s, s', apps, templates, r);
    assert apps - {r} == apps;
  }

  lemma TemplateAt(s: World, apps: map<nat, nat>, templates: set<nat>, t: nat)
    requires AllOk(s, apps, templates) && t in templates
    ensures TemplateOk(s, t) && s.free !! s.owner.Keys && RootsOwned(s) && t !in s.free
  {
    TableOwnedAt(s.mem, t, s.owner, 4, 0);
  }

  lemma EmptyBelowAll(s: World, r: nat, top: nat, a: nat, b: nat)
    requires forall l: nat, k: nat | l < 4 :: Slot(s.mem, r, l, k) == ZERO
    ensures EmptyBelow(s, r, top, a, b)
  {
  }

  /** The pages read zero where SetupPageMaps put them. */
  ghost predicate ReadsZeros(mem: Memory, mem': Memory, r: nat, a: nat, b: nat) {
    forall k: nat :: ReadPage(mem', r, k) == if a <= k < b then Some(ZeroPage()) else ReadPage(mem, r, k)
  }

  lemma SetupUndisturbed(s0: World, s: World, s': World, r: nat, t: nat, a: nat, b: nat, c: nat)
    requires AppOk(s, r, t) && TemplateOk(s, t) && Undisturbed(s0, s, r)
    requires Built(s, s', r, 4, a, b, c, true)
    requires forall k: nat | a <= k < b :: ReadPage(s.mem, r, k).None?
    ensures AppOk(s', r, t) && TemplateOk(s', t) && Undisturbed(s0, s', r) && Consistent(s', r)
    ensures ReadsZeros(s.mem, s'.mem, r, a, b)
  {
    hide Slot, Undisturbed, Built, TemplateOk, AppOk;
    forall k: nat | a <= k < b
      ensures !Slot(s.mem, r, 0, k).present
    {
      assert ReadPage(s.mem, r, k).None?;
    }
    AppAfterSetup(s, s', r, t, a, b, c);
    UndisturbedTransitive(s0, s, s', r);
    AppConsistent(s', r, t);
  }

  lemma AppConsistent(s: World, r: nat, t: nat)
    requires AppOk(s, r, t)
    ensures Consistent(s, r) && WritableIffOwned(s, r)
  {
  }

  /** A program that has ended leaves the rest in order. */
  lemma ExitKeeps(s: World, s1: World, s2: World, apps: map<nat, nat>, templates: set<nat>, r: nat)
    requires AllOk(s, apps, templates) && r in apps
    requires Released(s, s1, r, 4, UPPER, END)
    requires s2 == s1.(free := s1.free + {r}, owner := s1.owner - {r})
    ensures AllOk(s2, apps - {r}, templates)
    ensures Undisturbed(s, s2, r) && OthersUnchanged(s, s2, apps, templates, r)
    ensures forall f :: f in s2.owner <==> f in s.owner && s.owner[f].root != r
    ensures forall f :: f in s2.free <==> f in s.free || (f in s.owner && s.owner[f].root == r)
  {
    hide AllOk, AppOk, TemplateOk, Consistent, Released, Undisturbed, OthersUnchanged, RootsOwned;
    AllOkAt(s, apps, templates, r);
    AfterExit(s, s1, s2, r);
    ExitOthers(s, s2, apps, templates, r);
  }

  lemma ExitOthers(s: World, s': World, apps: map<nat, nat>, templates: set<nat>, r: nat)
    requires AllOk(s, apps, templates) && r !in templates
    requires Undisturbed(s, s', r) && RootsOwned(s')
    ensures AllOk(s', apps - {r}, templates) && OthersUnchanged(s, s', apps, templates, r)
  {
    UndisturbedDisjoint(s, s', r);
    hide AppOk, TemplateOk, Undisturbed, PagesKept, SlotsKept, RootsOwned;
    forall t | t in templates
      ensures TemplateOk(s', t) && SlotsKept(s, s', t) && PagesKept(s, s', t)
    {
      TemplateKept(s, s', r, t);
    }
    forall q | q in apps && q != r
      ensures AppOk(s', q, apps[q]) && PagesKept(s, s', q)
    {
      AppKept(s, s', r, q, apps[q]);
    }
  }

  /** Every frame that was free belongs to space r now, and no other has changed its owner. */
  ghost predicate TakesAll(s: World, s': World, r: nat) {
    && s'.free == {} && s'.owner.Keys == s.owner.Keys + s.free
    && (forall f | f in s.free :: s'.owner[f].root == r)
    && (forall f | f in s.owner && s.owner[f].root != r :: s'.owner[f] == s.owner[f])
  }

  lemma AllTaken(s: World, s': World, r: nat)
    requires Undisturbed(s, s', r) && s.free !! s.owner.Keys && s'.free == {}
    ensures TakesAll(s, s', r)
  {
    forall f | f in s.free
      ensures f in s'.owner && s'.owner[f].root == r
    {
      assert f in s'.free + s'.owner.Keys && f !in s.owner;
    }
  }

  /** A space that did not exist before and is gone again has left no trace in the allocator. */
  lemma NothingLeaked(s0: World, s1: World, s2: World, r: nat)
    requires s0.free !! s0.owner.Keys && RootsOwned(s0) && r in s0.free
    requires Undisturbed(s0, s1, r) && Undisturbed(s1, s2, r)
    requires forall f :: f in s2.owner <==> f in s1.owner && s1.owner[f].root != r
    ensures s2.free == s0.free && s2.owner == s0.owner
  {
    forall f | f in s0.owner
      ensures s0.owner[f].root != r
    {
      assert HasRole(s0.owner, s0.owner[f].root, Table(s0.owner[f].root, 4, 0));
    }
    assert forall f :: f in s2.owner <==> f in s0.owner;
    assert s2.owner == s0.owner;
    assert forall f :: f in s2.free <==> f in s2.free + s2.owner.Keys && f !in s2.owner;
  }

  lemma CopyUndisturbed(s0: World, s1: World, s2: World, r: nat, t: nat)
    requires Undisturbed(s0, s1, r) && Consistent(s1, r) && Copying(s1, s2, r, t)
    ensures Undisturbed(s0, s2, r) && Consistent(s2, r)
  {
    hide SpaceOk, Slot;
    GrownUndisturbed(s1, s2, r);
    UndisturbedTransitive(s0, s1, s2, r);
  }

  lemma KeptPages(s: World, s': World, r: nat)
    requires PagesKept(s, s', r)
    ensures forall k: nat :: ReadPage(s'.mem, r, k) == ReadPage(s.mem, r, k)
  {
  }

  /** The stack and argument pages of a started program are zero, its other pages read as the template's. */
  ghost predicate LaunchedPages(mem0: Memory, mem: Memory, r: nat, t: nat) {
    forall k: nat :: ReadPage(mem, r, k) == if END - 17 <= k < END then Some(ZeroPage()) else ReadPage(mem0, t, k)
  }

  lemma TopPages()
    ensures LinearAddress(0, 511, 511, 511, 511).Key(0) == END - 1
    ensures LinearAddress(0, 495, 511, 511, 511).Key(0) == END - 17
  {
  }

  lemma AllRootsOwned(s: World, apps: map<nat, nat>, templates: set<nat>)
    requires AllOk(s, apps, templates)
    ensures RootsOwned(s)
  {
  }

  lemma OthersAt(s: World, s': World, apps: map<nat, nat>, templates: set<nat>, r: nat)
    requires OthersUnchanged(s, s', apps, templates, r)
    ensures forall q | q in apps && q != r :: PagesKept(s, s', q)
    ensures forall q | q in templates :: SlotsKept(s, s', q) && PagesKept(s, s', q)
  {
  }
}
