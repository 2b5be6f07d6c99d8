/** Directories: finding and creating entries along paths (Kernel/fat.cpp). */
module FatDirectories {
  import opened Options
  import opened Messages
  import opened FatChains
  import opened FatNames

  const DIRECTORY: byte := 0x10

  datatype Entry = Entry(name: seq<byte>, attr: byte, first: nat, size: nat)

  const ZERO_ENTRY := Entry([0, 0, 0, 0, 0, 0, 0, 0, 0, 0, 0], 0, 0, 0)

  /** Where an entry is: a cluster and a place in it. */
  datatype Slot = Slot(cluster: nat, index: nat)

  predicate EntryOk(e: Entry) {
    |e.name| == 11
  }

  predicate IsUnused(e: Entry)
    requires EntryOk(e)
  {
    e.name[0] == 0 || e.name[0] == 0xe5
  }

  // ---- Lists of entries ---------------------------------------------------------------------

  datatype Listed = Listed(slot: Slot, entry: Entry)

  ghost predicate ListOk(list: seq<Listed>) {
    forall i | 0 <= i < |list| :: EntryOk(list[i].entry)
  }

  /** What a scan for a name comes to: an entry, the zero entry that ends a directory, or neither. */
  datatype Scan = Found(slot: Slot) | Ended | Passed

  function Search(list: seq<Listed>, name: seq<byte>): Scan
    requires ListOk(list)
  {
    if list == [] then Passed
    else if list[0].entry.name[0] == 0 then Ended
    else if NameIs(list[0].entry.name, name) then Found(list[0].slot)
    else Search(list[1..], name)
  }

  function Unused(list: seq<Listed>): Option<Slot>
    requires ListOk(list)
  {
    if list == [] then None
    else if IsUnused(list[0].entry) then Some(list[0].slot)
    else Unused(list[1..])
  }

  lemma {:induction false} ScanConcat(a: seq<Listed>, b: seq<Listed>, name: seq<byte>)
    requires ListOk(a) && ListOk(b)
    ensures ListOk(a + b)
    ensures Search(a + b, name) == if Search(a, name).Passed? then Search(b, name) else Search(a, name)
  {
    if a == [] {
      assert a + b == b;
    } else {
      ScanConcat(a[1..], b, name);
      assert (a + b)[1..] == a[1..] + b;
    }
  }

  lemma {:induction false} UnusedConcat(a: seq<Listed>, b: seq<Listed>)
    requires ListOk(a) && ListOk(b)
    ensures ListOk(a + b)
    ensures Unused(a + b) == if Unused(a).None? then Unused(b) else Unused(a)
  {
    if a == [] {
      assert a + b == b;
    } else {
      UnusedConcat(a[1..], b);
      assert (a + b)[1..] == a[1..] + b;
    }
  }

  /** A list with an unused entry: used ones, the entry, and the rest. */
  lemma {:induction false} SplitUnused(list: seq<Listed>) returns (a: seq<Listed>, l: Listed, b: seq<Listed>)
    requires ListOk(list) && Unused(list).Some?
    ensures ListOk(a) && EntryOk(l.entry) && ListOk(b) && list == a + [l] + b
    ensures Unused(a).None? && IsUnused(l.entry) && Unused(list) == Some(l.slot)
  {
    if IsUnused(list[0].entry) {
      a, l, b := [], list[0], list[1..];
      assert list == [] + [l] + b;
    } else {
      a, l, b := SplitUnused(list[1..]);
      a := [list[0]] + a;
      assert a[1..] + [l] + b == list[1..];
      assert list == a + [l] + b;
    }
  }

  predicate SameName(a: seq<byte>, b: seq<byte>) {
    SearchName(a, 0, Spaces(11)) == SearchName(b, 0, Spaces(11))
  }

  /** A search finds the first entry with the name among those before the first zero mark. */
  lemma {:induction false} SearchIs(list: seq<Listed>, name: seq<byte>)
    requires ListOk(list)
    ensures Search(list, name).Found? <==> exists i :: FirstWith(list, name, i)
    ensures forall i | FirstWith(list, name, i) :: Search(list, name) == Found(list[i].slot)
  {
    if list != [] && list[0].entry.name[0] != 0 && !NameIs(list[0].entry.name, name) {
      SearchIs(list[1..], name);
      forall i | FirstWith(list, name, i)
        ensures i > 0 && FirstWith(list[1..], name, i - 1)
      {
        assert forall j | 0 <= j < i - 1 :: list[1..][j] == list[j + 1];
      }
      if Search(list, name).Found? {
        var i :| FirstWith(list[1..], name, i);
        assert FirstWith(list, name, i + 1) by {
          assert forall j | 0 < j <= i :: list[j] == list[1..][j - 1];
        }
      }
    } else if list != [] && list[0].entry.name[0] != 0 {
      assert FirstWith(list, name, 0);
    }
  }

  ghost predicate FirstWith(list: seq<Listed>, name: seq<byte>, i: int)
    requires ListOk(list)
  {
    && 0 <= i < |list| && NameIs(list[i].entry.name, name) && list[i].entry.name[0] != 0
    && forall j | 0 <= j < i :: !NameIs(list[j].entry.name, name) && list[j].entry.name[0] != 0
  }

  /** Used entries never end a search. */
  lemma {:induction false} UsedNotEnded(list: seq<Listed>, name: seq<byte>)
    requires ListOk(list) && Unused(list).None?
    ensures !Search(list, name).Ended?
  {
    if list != [] {
      UsedNotEnded(list[1..], name);
    }
  }

  /** The first unused entry filled with a name that was not there: it is found, and all that was found in another entry is
      still found in its place. */
  lemma FillKeepsSearch(a: seq<Listed>, l: Listed, b: seq<Listed>, e: Entry, name: seq<byte>, other: seq<byte>)
    requires ListOk(a) && ListOk(b) && EntryOk(l.entry) && Unused(a).None? && IsUnused(l.entry)
    requires EntryOk(e) && NameIs(e.name, name) && e.name[0] != 0
    requires ListOk(a + [l] + b) && !Search(a + [l] + b, name).Found?
    ensures ListOk(a + [Listed(l.slot, e)] + b) && Search(a + [Listed(l.slot, e)] + b, name) == Found(l.slot)
    ensures Search(a + [l] + b, other).Found? && Search(a + [l] + b, other) != Found(l.slot) ==>
      Search(a + [Listed(l.slot, e)] + b, other) == Search(a + [l] + b, other)
  {
    var m := Listed(l.slot, e);
    ThreeParts(a, l, b, name);
    ThreeParts(a, m, b, name);
    ThreeParts(a, l, b, other);
    ThreeParts(a, m, b, other);
    UsedNotEnded(a, name);
    if SearchName(name, 0, Spaces(11)) == SearchName(other, 0, Spaces(11)) {
      SameSearch(a + [l] + b, name, other);
    }
  }

  lemma ThreeParts(a: seq<Listed>, l: Listed, b: seq<Listed>, name: seq<byte>)
    requires ListOk(a) && ListOk(b) && EntryOk(l.entry)
    ensures ListOk(a + [l] + b)
    ensures Search(a + [l] + b, name) ==
      if !Search(a, name).Passed? then Search(a, name)
      else if l.entry.name[0] == 0 then Ended
      else if NameIs(l.entry.name, name) then Found(l.slot)
      else Search(b, name)
  {
    ScanConcat(a, [l], name);
    ScanConcat(a + [l], b, name);
    assert [l][1..] == [];
  }

  lemma {:induction false} SameSearch(list: seq<Listed>, name: seq<byte>, other: seq<byte>)
    requires ListOk(list) && SameName(name, other)
    ensures Search(list, name) == Search(list, other)
  {
    if list != [] {
      SameSearch(list[1..], name, other);
    }
  }

  /** Behind the first zero entry there are only zero entries. */
  ghost predicate TailZero(list: seq<Listed>)
    requires ListOk(list)
  {
    forall i, j | 0 <= i < j < |list| && list[i].entry.name[0] == 0 :: list[j].entry.name[0] == 0
  }

  /** The tail stays zero. */
  lemma FillKeepsTail(a: seq<Listed>, l: Listed, b: seq<Listed>, e: Entry)
    requires ListOk(a) && ListOk(b) && EntryOk(l.entry) && Unused(a).None?
    requires EntryOk(e) && e.name[0] != 0 && ListOk(a + [l] + b) && TailZero(a + [l] + b)
    ensures ListOk(a + [Listed(l.slot, e)] + b) && TailZero(a + [Listed(l.slot, e)] + b)
  {
    var m := Listed(l.slot, e);
    var list, filled := a + [l] + b, a + [m] + b;
    forall i, j | 0 <= i < j < |filled| && filled[i].entry.name[0] == 0
      ensures filled[j].entry.name[0] == 0
    {
      assert i != |a|;
      assert list[i] == filled[i];
      assert list[j].entry.name[0] == 0;
      if j == |a| {
        NoneUnused(a, i);
      } else {
        assert list[j] == filled[j];
      }
    }
  }

  /** Then no other name appears. */
  lemma FillAddsOneName(a: seq<Listed>, l: Listed, b: seq<Listed>, e: Entry, name: seq<byte>, other: seq<byte>)
    requires ListOk(a) && ListOk(b) && EntryOk(l.entry) && Unused(a).None? && IsUnused(l.entry)
    requires EntryOk(e) && NameIs(e.name, name) && e.name[0] != 0
    requires ListOk(a + [l] + b) && TailZero(a + [l] + b)
    requires !Search(a + [l] + b, other).Found? && !SameName(name, other)
    ensures ListOk(a + [Listed(l.slot, e)] + b) && !Search(a + [Listed(l.slot, e)] + b, other).Found?
  {
    ThreeParts(a, l, b, other);
    ThreeParts(a, Listed(l.slot, e), b, other);
    var list := a + [l] + b;
    if l.entry.name[0] == 0 && b != [] {
      assert list[|a|] == l && list[|a| + 1] == b[0];
    }
  }

  lemma {:induction false} NoneUnused(list: seq<Listed>, i: nat)
    requires ListOk(list) && Unused(list).None? && i < |list|
    ensures !IsUnused(list[i].entry)
  {
    if i > 0 {
      NoneUnused(list[1..], i - 1);
    }
  }

  // ---- The entries of a directory --------------------------------------------------------------

  ghost predicate SlotsOk(slots: seq<seq<Entry>>, per: nat) {
    per > 0 && forall c | 0 <= c < |slots| :: ClusterOk(slots[c], per)
  }

  ghost predicate ClusterOk(entries: seq<Entry>, per: nat) {
    |entries| == per && forall i | 0 <= i < per :: EntryOk(entries[i])
  }

  ghost predicate ChainIn(chain: seq<nat>, n: nat) {
    forall i | 0 <= i < |chain| :: chain[i] < n
  }

  function ClusterList(cluster: nat, entries: seq<Entry>): (r: seq<Listed>)
    ensures |r| == |entries|
    ensures forall i | 0 <= i < |entries| :: r[i] == Listed(Slot(cluster, i), entries[i])
  {
    seq(|entries|, i requires 0 <= i < |entries| => Listed(Slot(cluster, i), entries[i]))
  }

  /** The entries of the clusters of a chain, in the order they are read. */
  ghost function Listing(slots: seq<seq<Entry>>, chain: seq<nat>): seq<Listed>
    requires ChainIn(chain, |slots|)
  {
    if chain == [] then [] else ClusterList(chain[0], slots[chain[0]]) + Listing(slots, chain[1..])
  }

  lemma {:induction false} ListingOk(slots: seq<seq<Entry>>, chain: seq<nat>, per: nat)
    requires SlotsOk(slots, per) && ChainIn(chain, |slots|)
    ensures ListOk(Listing(slots, chain))
    ensures forall i | 0 <= i < |Listing(slots, chain)| :: ListedIn(slots, chain, per, Listing(slots, chain)[i])
  {
    if chain != [] {
      ListingOk(slots, chain[1..], per);
      var rest := Listing(slots, chain[1..]);
      assert ClusterOk(slots[chain[0]], per);
      forall i | 0 <= i < |Listing(slots, chain)|
        ensures ListedIn(slots, chain, per, Listing(slots, chain)[i]) && EntryOk(Listing(slots, chain)[i].entry)
      {
        if i >= per {
          assert ListedIn(slots, chain[1..], per, rest[i - per]);
        }
      }
    }
  }

  ghost predicate ListedIn(slots: seq<seq<Entry>>, chain: seq<nat>, per: nat, l: Listed) {
    && l.slot.cluster in chain && l.slot.cluster < |slots| && l.slot.index < |slots[l.slot.cluster]| == per
    && l.entry == slots[l.slot.cluster][l.slot.index]
  }

  lemma {:induction false} ListingConcat(slots: seq<seq<Entry>>, a: seq<nat>, b: seq<nat>)
    requires ChainIn(a, |slots|) && ChainIn(b, |slots|)
    ensures ChainIn(a + b, |slots|) && Listing(slots, a + b) == Listing(slots, a) + Listing(slots, b)
  {
    if a == [] {
      assert a + b == b;
    } else {
      ListingConcat(slots, a[1..], b);
      assert (a + b)[1..] == a[1..] + b;
    }
  }

  lemma {:induction false} ListingFrame(slots: seq<seq<Entry>>, after: seq<seq<Entry>>, chain: seq<nat>)
    requires |after| == |slots| && ChainIn(chain, |slots|)
    requires forall i | 0 <= i < |chain| :: after[chain[i]] == slots[chain[i]]
    ensures Listing(after, chain) == Listing(slots, chain)
  {
    if chain != [] {
      ListingFrame(slots, after, chain[1..]);
    }
  }

  function PutEntry(slots: seq<seq<Entry>>, s: Slot, e: Entry): seq<seq<Entry>>
    requires s.cluster < |slots| && s.index < |slots[s.cluster]|
  {
    slots[s.cluster := slots[s.cluster][s.index := e]]
  }

  /** An entry written changes the listing in its place only. */
  lemma {:induction false} ListingPut(slots: seq<seq<Entry>>, chain: seq<nat>, per: nat, a: seq<Listed>,
                                      l: Listed, b: seq<Listed>, e: Entry)
    requires SlotsOk(slots, per) && ChainIn(chain, |slots|) && NoRepeats(chain)
    requires Listing(slots, chain) == a + [l] + b
    requires l.slot.cluster < |slots| && l.slot.index < |slots[l.slot.cluster]|
    ensures Listing(PutEntry(slots, l.slot, e), chain) == a + [Listed(l.slot, e)] + b
  {
    assert chain != [];
    var c, rest := chain[0], chain[1..];
    var after := PutEntry(slots, l.slot, e);
    var here, there := ClusterList(c, slots[c]), Listing(slots, rest);
    assert ClusterOk(slots[c], per);
    ListingOk(slots, rest, per);
    assert here + there == a + [l] + b;
    if |a| < per {
      SplitLeft(here, there, a, l, b);
      ListingFrame(slots, after, rest);
      assert ClusterList(c, after[c]) == a + [Listed(l.slot, e)] + here[|a| + 1..];
    } else {
      SplitRight(here, there, a, l, b);
      assert l == there[|a| - per] && ListedIn(slots, rest, per, l);
      assert c !in rest;
      ListingPut(slots, rest, per, a[per..], l, b, e);
    }
  }

  lemma SplitLeft(here: seq<Listed>, there: seq<Listed>, a: seq<Listed>, l: Listed, b: seq<Listed>)
    requires here + there == a + [l] + b && |a| < |here|
    ensures here == a + [l] + here[|a| + 1..] && b == here[|a| + 1..] + there && here[|a|] == l
    ensures forall m :: a + [m] + here[|a| + 1..] + there == a + [m] + b
  {
    assert here == (a + [l] + b)[..|here|];
    assert there == (a + [l] + b)[|here|..];
  }

  lemma SplitRight(here: seq<Listed>, there: seq<Listed>, a: seq<Listed>, l: Listed, b: seq<Listed>)
    requires here + there == a + [l] + b && |here| <= |a|
    ensures a == here + a[|here|..] && there == a[|here|..] + [l] + b && there[|a| - |here|] == l
    ensures forall m :: here + (a[|here|..] + [m] + b) == a + [m] + b
  {
    assert here == (a + [l] + b)[..|here|];
    assert there == (a + [l] + b)[|here|..];
  }

  // ---- A tree of directories --------------------------------------------------------------------

  /** The table, the entries in the clusters, and the chain of each directory by its first cluster. */
  datatype Tree = Tree(fat: seq<nat>, slots: seq<seq<Entry>>, dirs: map<nat, seq<nat>>, root: nat, per: nat)

  ghost predicate TreeOk(t: Tree) {
    && TableOk(t.fat) && |t.slots| == |t.fat| && SlotsOk(t.slots, t.per) && t.root in t.dirs && 0 !in t.dirs
    && (forall d | d in t.dirs :: IsChain(t.fat, t.dirs[d]) && t.dirs[d][0] == d)
    && (forall d, e | d in t.dirs && e in t.dirs && d != e :: Disjoint(t.dirs[d], t.dirs[e]))
    && (forall d, c, i | d in t.dirs && c in t.dirs[d] && 0 <= i < t.per :: LinkOk(t, c, i))
  }

  /** An entry of a directory that is a directory leads to one; the cluster number 0 stands for the root. */
  ghost predicate LinkOk(t: Tree, c: nat, i: nat) {
    c < |t.slots| && i < |t.slots[c]| && t.slots[c][i].attr == DIRECTORY ==>
      t.slots[c][i].first == 0 || t.slots[c][i].first in t.dirs
  }

  ghost predicate IsDir(t: Tree, d: nat) {
    d == 0 || d in t.dirs
  }

  ghost function List(t: Tree, d: nat): (r: seq<Listed>)
    requires TreeOk(t) && d in t.dirs
    ensures ListOk(r)
  {
    InTheTable(t, d);
    ListingOk(t.slots, t.dirs[d], t.per);
    Listing(t.slots, t.dirs[d])
  }

  lemma InTheTable(t: Tree, d: nat)
    requires TreeOk(t) && d in t.dirs
    ensures ChainIn(t.dirs[d], |t.slots|) && IsChain(t.fat, t.dirs[d]) && NoRepeats(t.dirs[d])
  {
    Acyclic(t.fat, t.dirs[d]);
  }

  ghost function Lookup(t: Tree, d: nat, name: seq<byte>): Scan
    requires TreeOk(t) && d in t.dirs
  {
    Search(List(t, d), name)
  }

  /** What is found in a directory is an entry of one of its clusters, with that name. */
  lemma FoundEntry(t: Tree, d: nat, name: seq<byte>)
    requires TreeOk(t) && d in t.dirs && Lookup(t, d, name).Found?
    ensures
      var s := Lookup(t, d, name).slot;
      && s.cluster in t.dirs[d] && s.cluster < |t.slots| && s.index < |t.slots[s.cluster]| == t.per
      && EntryOk(EntryAt(t, s)) && NameIs(EntryAt(t, s).name, name) && EntryAt(t, s).name[0] != 0
      && (EntryAt(t, s).attr == DIRECTORY ==> IsDir(t, EntryAt(t, s).first))
  {
    InTheTable(t, d);
    ListingOk(t.slots, t.dirs[d], t.per);
    var l := FoundListed(List(t, d), name);
    assert ListedIn(t.slots, t.dirs[d], t.per, l);
    assert LinkOk(t, l.slot.cluster, l.slot.index);
  }

  function EntryAt(t: Tree, s: Slot): Entry {
    if s.cluster < |t.slots| && s.index < |t.slots[s.cluster]| then t.slots[s.cluster][s.index] else ZERO_ENTRY
  }

  lemma {:induction false} FoundListed(list: seq<Listed>, name: seq<byte>) returns (l: Listed)
    requires ListOk(list) && Search(list, name).Found?
    ensures l in list && Search(list, name) == Found(l.slot) && NameIs(l.entry.name, name) && l.entry.name[0] != 0
  {
    if NameIs(list[0].entry.name, name) {
      l := list[0];
    } else {
      l := FoundListed(list[1..], name);
    }
  }

  // ---- Paths -------------------------------------------------------------------------------------

  function FirstSlash(path: seq<byte>): (k: nat)
    ensures k <= |path| && (k < |path| ==> path[k] == SLASH) && SLASH !in path[..k]
  {
    if path == [] || path[0] == SLASH then 0 else 1 + FirstSlash(path[1..])
  }

  predicate IsAbsolute(path: seq<byte>) {
    path != [] && path[0] == SLASH
  }

  function Relative(path: seq<byte>): seq<byte> {
    if IsAbsolute(path) then path[1..] else path
  }

  /** fat::Findfile: the entry a path leads to, and whether a slash follows its name. */
  ghost function Find(t: Tree, path: seq<byte>, dir: nat): (Option<Slot>, bool)
    requires TreeOk(t) && IsDir(t, dir)
    decreases |path|
  {
    var start := if IsAbsolute(path) || dir == 0 then t.root else dir;
    var p := Relative(path);
    var k := FirstSlash(p);
    match Lookup(t, start, p[..k])
    case Found(s) =>
      FoundEntry(t, start, p[..k]);
      if EntryAt(t, s).attr == DIRECTORY && k + 1 < |p| then Find(t, p[k + 1..], EntryAt(t, s).first)
      else (Some(s), k < |p|)
    case _ => (None, k < |p|)
  }

  /** A path leads to the same entry in any case. */
  lemma {:induction false} FindAnyCase(t: Tree, a: seq<byte>, b: seq<byte>, dir: nat)
    requires TreeOk(t) && IsDir(t, dir) && SameLetters(a, b)
    ensures Find(t, a, dir) == Find(t, b, dir)
    decreases |a|
  {
    hide TreeOk, IsDir, Lookup, SameLetter;
    FindStep(t, a, dir);
    FindStep(t, b, dir);
    PathAnyCase(a, b);
    var start := if IsAbsolute(a) || dir == 0 then t.root else dir;
    var p, q := Relative(a), Relative(b);
    var k := FirstSlash(p);
    LookupAnyCase(t, start, p[..k], q[..k]);
    var r := Lookup(t, start, p[..k]);
    if r.Found? && EntryAt(t, r.slot).attr == DIRECTORY && k + 1 < |p| {
      FindAnyCase(t, p[k + 1..], q[k + 1..], EntryAt(t, r.slot).first);
    }
  }

  lemma LookupAnyCase(t: Tree, d: nat, a: seq<byte>, b: seq<byte>)
    requires TreeOk(t) && d in t.dirs && SameLetters(a, b)
    ensures Lookup(t, d, a) == Lookup(t, d, b)
  {
    SearchAnyCase(a, b, 0, Spaces(11));
    SameSearch(List(t, d), a, b);
  }

  lemma PathAnyCase(a: seq<byte>, b: seq<byte>)
    requires SameLetters(a, b)
    ensures IsAbsolute(a) == IsAbsolute(b) && SameLetters(Relative(a), Relative(b))
    ensures
      var p, q := Relative(a), Relative(b);
      var k := FirstSlash(p);
      k == FirstSlash(q) && SameLetters(p[..k], q[..k]) && (k < |p| ==> SameLetters(p[k + 1..], q[k + 1..]))
  {
    hide SameLetter, FirstSlash;
    if a != [] {
      SameUpper(a[0], b[0]);
    }
    SlashAnyCase(Relative(a), Relative(b));
    SlashAnyCase(Relative(b), Relative(a));
  }

  lemma SlashAnyCase(p: seq<byte>, q: seq<byte>)
    requires |p| == |q| && forall i | 0 <= i < |p| :: SameLetter(p[i], q[i]) || SameLetter(q[i], p[i])
    ensures FirstSlash(p) <= FirstSlash(q)
  {
    var k := FirstSlash(q);
    if k < |q| {
      LetterBack(p[k], q[k]);
      SlashAt(p, k);
    }
  }

  lemma LetterBack(a: byte, b: byte)
    requires SameLetter(a, b) || SameLetter(b, a)
    ensures a == SLASH <==> b == SLASH
  {
    if SameLetter(a, b) {
      SameUpper(a, b);
    } else {
      SameUpper(b, a);
    }
  }

  lemma {:induction false} SlashAt(p: seq<byte>, k: nat)
    requires k < |p| && p[k] == SLASH
    ensures FirstSlash(p) <= k
  {
    if p[0] != SLASH {
      SlashAt(p[1..], k - 1);
    }
  }

  lemma SlashAfter(parent: seq<byte>, rest: seq<byte>)
    ensures FirstSlash(parent + [SLASH] + rest) == FirstSlash(parent)
    decreases |parent|
  {
    if parent != [] {
      assert (parent + [SLASH] + rest)[1..] == parent[1..] + [SLASH] + rest;
      SlashAfter(parent[1..], rest);
    }
  }

  /** A path through a directory: what follows is looked for in it, unless the path of the directory ends in a slash. */
  lemma {:induction false} FindThrough(t: Tree, parent: seq<byte>, rest: seq<byte>, dir: nat)
    requires TreeOk(t) && IsDir(t, dir) && Relative(parent) != [] && parent[|parent| - 1] != SLASH && rest != []
    requires Find(t, parent, dir).0.Some? && EntryAt(t, Find(t, parent, dir).0.value).attr == DIRECTORY
    requires IsDir(t, EntryAt(t, Find(t, parent, dir).0.value).first)
    ensures Find(t, parent + [SLASH] + rest, dir) == Find(t, rest, EntryAt(t, Find(t, parent, dir).0.value).first)
    decreases |parent|
  {
    hide *;
    var path := parent + [SLASH] + rest;
    PathParts(parent, rest);
    FindStep(t, parent, dir);
    FindStep(t, path, dir);
    var p := Relative(parent);
    var k := FirstSlash(p);
    var start := if IsAbsolute(parent) || dir == 0 then t.root else dir;
    var s := Lookup(t, start, p[..k]).slot;
    if k + 1 < |p| && EntryAt(t, s).attr == DIRECTORY {
      assert parent[|parent| - 1] == p[k + 1..][|p[k + 1..]| - 1] != SLASH;
      NotOnlySlash(p[k + 1..]);
      FindThrough(t, p[k + 1..], rest, EntryAt(t, s).first);
    }
  }

  lemma PathParts(parent: seq<byte>, rest: seq<byte>)
    requires Relative(parent) != []
    ensures
      var p, path := Relative(parent), parent + [SLASH] + rest;
      var k := FirstSlash(p);
      && k <= |p| <= |parent| && p[|p| - 1] == parent[|parent| - 1]
      && IsAbsolute(path) == IsAbsolute(parent) && Relative(path) == p + [SLASH] + rest
      && FirstSlash(Relative(path)) == k && Relative(path)[..k] == p[..k] && |Relative(path)| == |p| + 1 + |rest|
      && (k + 1 < |p| ==> Relative(path)[k + 1..] == p[k + 1..] + [SLASH] + rest)
      && (k == |p| ==> Relative(path)[k + 1..] == rest)
      && (k < |p| ==> p[k] == SLASH)
  {
    SlashAfter(Relative(parent), rest);
    assert Relative(parent + [SLASH] + rest) == Relative(parent) + [SLASH] + rest;
  }

  lemma NotOnlySlash(path: seq<byte>)
    requires path != [] && path[|path| - 1] != SLASH
    ensures Relative(path) != []
  {
  }

  lemma StartIsDir(t: Tree, path: seq<byte>, dir: nat)
    requires TreeOk(t) && IsDir(t, dir)
    ensures (if IsAbsolute(path) || dir == 0 then t.root else dir) in t.dirs
    ensures FirstSlash(Relative(path)) <= |Relative(path)| <= |path|
  {
  }

  lemma FindStep(t: Tree, path: seq<byte>, dir: nat)
    requires TreeOk(t) && IsDir(t, dir)
    ensures
      var start := if IsAbsolute(path) || dir == 0 then t.root else dir;
      var p := Relative(path);
      var k := FirstSlash(p);
      && start in t.dirs && |p| <= |path| && k <= |p|
      && match Lookup(t, start, p[..k])
         case Found(s) =>
           && (EntryAt(t, s).attr == DIRECTORY ==> IsDir(t, EntryAt(t, s).first))
           && Find(t, path, dir) ==
                if EntryAt(t, s).attr == DIRECTORY && k + 1 < |p| then Find(t, p[k + 1..], EntryAt(t, s).first)
                else (Some(s), k < |p|)
         case _ => Find(t, path, dir) == (None, k < |p|)
  {
    hide TreeOk, List, Lookup, FirstSlash, NameIs, EntryOk, EntryAt, IsDir, IsAbsolute, Relative, Search;
    StartIsDir(t, path, dir);
    var start := if IsAbsolute(path) || dir == 0 then t.root else dir;
    if Lookup(t, start, Relative(path)[..FirstSlash(Relative(path))]).Found? {
      FoundEntry(t, start, Relative(path)[..FirstSlash(Relative(path))]);
    }
  }

  /** The entries a search along a path comes by: one for each element that is found. */
  ghost function Walk(t: Tree, path: seq<byte>, dir: nat): seq<Slot>
    requires TreeOk(t) && IsDir(t, dir)
    decreases |path|
  {
    var start := if IsAbsolute(path) || dir == 0 then t.root else dir;
    var p := Relative(path);
    var k := FirstSlash(p);
    match Lookup(t, start, p[..k])
    case Found(s) =>
      FoundEntry(t, start, p[..k]);
      [s] + if EntryAt(t, s).attr == DIRECTORY && k + 1 < |p| then Walk(t, p[k + 1..], EntryAt(t, s).first) else []
    case _ => []
  }

  lemma WalkStep(t: Tree, path: seq<byte>, dir: nat)
    requires TreeOk(t) && IsDir(t, dir)
    ensures
      var start := if IsAbsolute(path) || dir == 0 then t.root else dir;
      var p := Relative(path);
      var k := FirstSlash(p);
      && start in t.dirs && |p| <= |path| && k <= |p|
      && match Lookup(t, start, p[..k])
         case Found(s) =>
           && (EntryAt(t, s).attr == DIRECTORY ==> IsDir(t, EntryAt(t, s).first))
           && Walk(t, path, dir) ==
                [s] + (if EntryAt(t, s).attr == DIRECTORY && k + 1 < |p| then Walk(t, p[k + 1..], EntryAt(t, s).first) else [])
           && Walk(t, path, dir)[0] == s
         case _ => Walk(t, path, dir) == []
  {
    hide TreeOk, List, Lookup, FirstSlash, NameIs, EntryOk, EntryAt, IsDir, IsAbsolute, Relative, Search;
    StartIsDir(t, path, dir);
    var start := if IsAbsolute(path) || dir == 0 then t.root else dir;
    if Lookup(t, start, Relative(path)[..FirstSlash(Relative(path))]).Found? {
      FoundEntry(t, start, Relative(path)[..FirstSlash(Relative(path))]);
    }
  }

  lemma WalkIn(r: Slot, walk: seq<Slot>, s: Slot)
    ensures s in [r] + walk <==> s == r || s in walk
    ensures ([r] + walk)[0] == r && ([r] + walk)[1..] == walk
    ensures [r] + [] == [r]
  {
  }

  /** A path through a directory is a walk to that directory and on from there. */
  lemma {:induction false} WalkThrough(t: Tree, parent: seq<byte>, rest: seq<byte>, dir: nat)
    requires TreeOk(t) && IsDir(t, dir) && Relative(parent) != [] && parent[|parent| - 1] != SLASH && rest != []
    requires Find(t, parent, dir).0.Some? && EntryAt(t, Find(t, parent, dir).0.value).attr == DIRECTORY
    requires IsDir(t, EntryAt(t, Find(t, parent, dir).0.value).first)
    ensures Walk(t, parent + [SLASH] + rest, dir) ==
      Walk(t, parent, dir) + Walk(t, rest, EntryAt(t, Find(t, parent, dir).0.value).first)
    decreases |parent|
  {
    hide *;
    var path := parent + [SLASH] + rest;
    PathParts(parent, rest);
    FindStep(t, parent, dir);
    WalkStep(t, parent, dir);
    WalkStep(t, path, dir);
    var p := Relative(parent);
    var k := FirstSlash(p);
    var start := if IsAbsolute(parent) || dir == 0 then t.root else dir;
    var s := Lookup(t, start, p[..k]).slot;
    if k + 1 < |p| && EntryAt(t, s).attr == DIRECTORY {
      assert parent[|parent| - 1] == p[k + 1..][|p[k + 1..]| - 1] != SLASH;
      NotOnlySlash(p[k + 1..]);
      WalkThrough(t, p[k + 1..], rest, EntryAt(t, s).first);
    }
  }

  // ---- A new entry -----------------------------------------------------------------------------

  function ZeroCluster(per: nat): seq<Entry> {
    seq(per, _ => ZERO_ENTRY)
  }

  /** The first unused entry of a directory has been overwritten. */
  ghost predicate Reused(t: Tree, u: Tree, d: nat, s: Slot, e: Entry)
    requires TreeOk(t) && d in t.dirs
  {
    && Unused(List(t, d)) == Some(s) && s.cluster < |t.slots| && s.index < |t.slots[s.cluster]|
    && e.attr == EntryAt(t, s).attr && e.first == EntryAt(t, s).first
    && u == t.(slots := PutEntry(t.slots, s, e))
  }

  /** A directory without an unused entry has got one more cluster, and the first entry of that has been written. */
  ghost predicate Appended(t: Tree, u: Tree, d: nat, s: Slot, e: Entry)
    requires TreeOk(t) && d in t.dirs
  {
    && Unused(List(t, d)).None? && Free(t.fat, s.cluster) && s.index == 0 && e.attr == 0 && e.first == 0
    && Grown(t.fat, u.fat, t.dirs[d], [s.cluster])
    && u == Tree(u.fat, t.slots[s.cluster := ZeroCluster(t.per)[0 := e]], t.dirs[d := t.dirs[d] + [s.cluster]], t.root, t.per)
  }

  ghost predicate Added(t: Tree, u: Tree, d: nat, s: Slot, e: Entry) {
    TreeOk(t) && d in t.dirs && EntryOk(e) && e.name[0] != 0 && e.name[0] != 0xe5 && (Reused(t, u, d, s, e) || Appended(t, u, d, s, e))
  }

  lemma ReusedTree(t: Tree, u: Tree, d: nat, s: Slot, e: Entry)
    requires TreeOk(t) && d in t.dirs && EntryOk(e) && Reused(t, u, d, s, e)
    ensures TreeOk(u)
  {
    assert SlotsOk(u.slots, u.per) by {
      assert ClusterOk(t.slots[s.cluster], t.per);
    }
    forall f, c, i | f in u.dirs && c in u.dirs[f] && 0 <= i < u.per
      ensures LinkOk(u, c, i)
    {
      assert LinkOk(t, c, i);
    }
  }

  lemma ReusedListed(t: Tree, d: nat) returns (a: seq<Listed>, l: Listed, b: seq<Listed>)
    requires TreeOk(t) && d in t.dirs && Unused(List(t, d)).Some?
    ensures ListOk(a) && ListOk(b) && Unused(a).None? && List(t, d) == a + [l] + b
    ensures IsDirSlot(t, d, l.slot) && l.entry == EntryAt(t, l.slot) && EntryOk(l.entry) && IsUnused(l.entry)
    ensures Unused(List(t, d)) == Some(l.slot)
  {
    InTheTable(t, d);
    ListingOk(t.slots, t.dirs[d], t.per);
    hide NoRepeats, IsChain, Unused, Listing, SlotsOk;
    a, l, b := SplitUnused(List(t, d));
    assert l == List(t, d)[|a|] && ListedIn(t.slots, t.dirs[d], t.per, l);
  }

  ghost predicate IsDirSlot(t: Tree, d: nat, s: Slot) {
    d in t.dirs && s.cluster in t.dirs[d] && s.cluster < |t.slots| && s.index < |t.slots[s.cluster]|
  }

  /** Other directories are listed as before. */
  lemma OtherListed(t: Tree, u: Tree, d: nat, s: Slot, e: Entry, f: nat)
    requires TreeOk(t) && TreeOk(u) && IsDirSlot(t, d, s) && u == t.(slots := PutEntry(t.slots, s, e))
    requires f in t.dirs && f != d
    ensures List(u, f) == List(t, f)
  {
    InTheTable(t, f);
    assert Disjoint(t.dirs[f], t.dirs[d]);
    ListingFrame(t.slots, u.slots, t.dirs[f]);
  }

  /** The directory itself has the new entry in the place of the old one. */
  lemma HereListed(t: Tree, u: Tree, d: nat, e: Entry, a: seq<Listed>, l: Listed, b: seq<Listed>)
    requires TreeOk(t) && TreeOk(u) && IsDirSlot(t, d, l.slot) && u == t.(slots := PutEntry(t.slots, l.slot, e))
    requires List(t, d) == a + [l] + b
    ensures List(u, d) == a + [Listed(l.slot, e)] + b
  {
    InTheTable(t, d);
    ListingPut(t.slots, t.dirs[d], t.per, a, l, b, e);
  }

  // ---- Appending a cluster

  lemma AppendedTree(t: Tree, u: Tree, d: nat, s: Slot, e: Entry)
    requires TreeOk(t) && d in t.dirs && EntryOk(e) && Appended(t, u, d, s, e)
    ensures TreeOk(u)
  {
    var c := s.cluster;
    AppendedChains(t, u, d, c);
    assert SlotsOk(u.slots, u.per);
    hide IsChain, Grown, Disjoint, List, Unused;
    forall f, k, i | f in u.dirs && k in u.dirs[f] && 0 <= i < u.per
      ensures LinkOk(u, k, i)
    {
      if k != c {
        assert k in t.dirs[f] && LinkOk(t, k, i);
      }
    }
  }

  lemma AppendedChains(t: Tree, u: Tree, d: nat, c: nat)
    requires TreeOk(t) && d in t.dirs && Free(t.fat, c) && Grown(t.fat, u.fat, t.dirs[d], [c])
    requires u.dirs == t.dirs[d := t.dirs[d] + [c]]
    ensures forall f | f in u.dirs :: IsChain(u.fat, u.dirs[f]) && u.dirs[f][0] == f
    ensures forall f, g | f in u.dirs && g in u.dirs && f != g :: Disjoint(u.dirs[f], u.dirs[g])
  {
    assert forall i | 0 <= i < |[c]| :: Free(t.fat, [c][i]);
    hide SlotsOk, LinkOk;
    forall f | f in t.dirs && f != d
      ensures IsChain(u.fat, u.dirs[f]) && Disjoint(u.dirs[d], u.dirs[f]) && Disjoint(u.dirs[f], u.dirs[d])
    {
      OtherChain(t.fat, u.fat, t.dirs[d], [c], t.dirs[f]);
    }
  }

  lemma AppendedListed(t: Tree, u: Tree, d: nat, s: Slot, e: Entry, f: nat)
    requires TreeOk(t) && TreeOk(u) && d in t.dirs && Appended(t, u, d, s, e) && f in t.dirs
    ensures f != d ==> List(u, f) == List(t, f)
    ensures f == d ==> List(u, d) == List(t, d) + ClusterList(s.cluster, u.slots[s.cluster])
  {
    AppendedFrame(t, u, d, s, e, f);
    InTheTable(t, f);
    InTheTable(u, f);
    hide TreeOk, IsChain, NoRepeats, Grown, Unused, ChainIn;
    ListingFrame(t.slots, u.slots, t.dirs[f]);
    if f == d {
      InTheTable(t, d);
      OneCluster(u, s.cluster);
      ListingConcat(u.slots, t.dirs[d], [s.cluster]);
    }
  }

  lemma OneCluster(u: Tree, c: nat)
    requires c < |u.slots|
    ensures ChainIn([c], |u.slots|) && Listing(u.slots, [c]) == ClusterList(c, u.slots[c])
  {
    assert [c][1..] == [];
  }

  lemma AppendedFrame(t: Tree, u: Tree, d: nat, s: Slot, e: Entry, f: nat)
    requires TreeOk(t) && TreeOk(u) && d in t.dirs && Appended(t, u, d, s, e) && f in t.dirs
    ensures |u.slots| == |t.slots| && s.cluster < |t.slots|
    ensures forall i | 0 <= i < |t.dirs[f]| :: t.dirs[f][i] < |t.slots| && u.slots[t.dirs[f][i]] == t.slots[t.dirs[f][i]]
    ensures f == d ==> u.dirs[d] == t.dirs[d] + [s.cluster]
    ensures f != d ==> u.dirs[f] == t.dirs[f]
  {
    hide NoRepeats, Unused, Grown, SlotsOk;
    forall i | 0 <= i < |t.dirs[f]|
      ensures t.dirs[f][i] < |t.slots| && t.dirs[f][i] != s.cluster
    {
      NextInChain(t.fat, t.dirs[f], i);
    }
  }

  // ---- Creating and finding --------------------------------------------------------------------

  lemma AddedTree(t: Tree, u: Tree, d: nat, s: Slot, e: Entry)
    requires Added(t, u, d, s, e)
    ensures TreeOk(u) && u.dirs.Keys == t.dirs.Keys && u.root == t.root
  {
    if Reused(t, u, d, s, e) {
      ReusedTree(t, u, d, s, e);
    } else {
      AppendedTree(t, u, d, s, e);
    }
  }

  /** A name that was not in a directory is found in the new entry with it. */
  lemma AddedFinds(t: Tree, u: Tree, d: nat, s: Slot, e: Entry, name: seq<byte>)
    requires Added(t, u, d, s, e) && NameIs(e.name, name) && !Lookup(t, d, name).Found?
    ensures TreeOk(u) && d in u.dirs && Lookup(u, d, name) == Found(s)
  {
    AddedTree(t, u, d, s, e);
    hide TreeOk, NameIs, IsChain, Grown, SlotsOk;
    if Reused(t, u, d, s, e) {
      var a, l, b := ReusedListed(t, d);
      HereListed(t, u, d, e, a, l, b);
      FillKeepsSearch(a, l, b, e, name, name);
    } else {
      AppendedListed(t, u, d, s, e, d);
      ScanConcat(List(t, d), ClusterList(s.cluster, u.slots[s.cluster]), name);
      UsedNotEnded(List(t, d), name);
    }
  }

  /** What was found in any directory is still found there, and leads where it did, unless it was the entry that has been
      overwritten: that one is no longer found under its old name. */
  lemma AddedKeeps(t: Tree, u: Tree, d: nat, s: Slot, e: Entry, name: seq<byte>, f: nat, other: seq<byte>)
    requires Added(t, u, d, s, e) && NameIs(e.name, name) && !Lookup(t, d, name).Found?
    requires f in t.dirs && Lookup(t, f, other).Found?
    ensures TreeOk(u) && f in u.dirs
    ensures Lookup(u, f, other) == Lookup(t, f, other) <==> Lookup(t, f, other) != Found(s)
    ensures Lookup(t, f, other) == Found(s) ==> Lookup(u, f, other) != Found(s)
    ensures
      var r := Lookup(t, f, other).slot;
      r != s ==> EntryAt(u, r) == EntryAt(t, r)
  {
    AddedTree(t, u, d, s, e);
    if Reused(t, u, d, s, e) {
      ReusedKeeps(t, u, d, s, e, name, f, other);
    } else {
      AppendedKeeps(t, u, d, s, e, f, other);
    }
  }

  lemma ReusedKeeps(t: Tree, u: Tree, d: nat, s: Slot, e: Entry, name: seq<byte>, f: nat, other: seq<byte>)
    requires Added(t, u, d, s, e) && NameIs(e.name, name) && !Lookup(t, d, name).Found? && Reused(t, u, d, s, e)
    requires TreeOk(u)
    requires f in t.dirs && Lookup(t, f, other).Found?
    ensures Lookup(t, f, other) != Found(s) ==> Lookup(u, f, other) == Lookup(t, f, other)
    ensures Lookup(t, f, other) == Found(s) ==> Lookup(u, f, other) != Found(s)
    ensures
      var r := Lookup(t, f, other).slot;
      r != s ==> EntryAt(u, r) == EntryAt(t, r)
  {
    FoundEntry(t, f, other);
    var a, l, b := ReusedListed(t, d);
    if Lookup(t, f, other) == Found(s) {
      OverwrittenIsLost(t, u, d, s, e, f, other);
    } else {
      hide TreeOk, NameIs, IsChain, SlotsOk, List;
      if f == d {
        HereListed(t, u, d, e, a, l, b);
        FillKeepsSearch(a, l, b, e, name, other);
      } else {
        OtherListed(t, u, d, s, e, f);
      }
    }
  }

  /** A search that ended at a deleted entry does not end there once the entry has a name again. */
  lemma OverwrittenIsLost(t: Tree, u: Tree, d: nat, s: Slot, e: Entry, f: nat, other: seq<byte>)
    requires Added(t, u, d, s, e) && Reused(t, u, d, s, e) && TreeOk(u)
    requires f in t.dirs && Lookup(t, f, other) == Found(s)
    ensures Lookup(u, f, other) != Found(s)
  {
    FoundEntry(t, f, other);
    var a, l, b := ReusedListed(t, d);
    assert EntryAt(t, s).name[0] == 0xe5 && EntryAt(u, s) == e;
    hide TreeOk, List, Search, SearchName;
    if Lookup(u, f, other).Found? {
      FoundEntry(u, f, other);
    }
  }

  ghost predicate TailsZero(t: Tree)
    requires TreeOk(t)
  {
    forall d | d in t.dirs :: TailZero(List(t, d))
  }

  /** Where zero entries end the directories, they still do, and no name but the new one can be found that could not before. */
  lemma AddedAddsOneName(t: Tree, u: Tree, d: nat, s: Slot, e: Entry, name: seq<byte>, f: nat, other: seq<byte>)
    requires Added(t, u, d, s, e) && NameIs(e.name, name) && !Lookup(t, d, name).Found?
    requires TailsZero(t) && f in t.dirs
    ensures TreeOk(u) && f in u.dirs && TailZero(List(u, f))
    ensures !Lookup(t, f, other).Found? && Lookup(u, f, other).Found? ==>
      f == d && SameName(name, other) && Lookup(u, f, other) == Found(s)
  {
    AddedTree(t, u, d, s, e);
    assert TailZero(List(t, f));
    if Reused(t, u, d, s, e) {
      ReusedAddsOneName(t, u, d, s, e, name, f, other);
    } else {
      AppendedAddsOneName(t, u, d, s, e, name, f, other);
    }
  }

  lemma ReusedAddsOneName(t: Tree, u: Tree, d: nat, s: Slot, e: Entry, name: seq<byte>, f: nat, other: seq<byte>)
    requires Added(t, u, d, s, e) && NameIs(e.name, name) && !Lookup(t, d, name).Found? && Reused(t, u, d, s, e)
    requires TreeOk(u) && f in t.dirs && f in u.dirs && TailZero(List(t, f))
    ensures TailZero(List(u, f))
    ensures !Lookup(t, f, other).Found? && Lookup(u, f, other).Found? ==>
      f == d && SameName(name, other) && Lookup(u, f, other) == Found(s)
  {
    var a, l, b := ReusedListed(t, d);
    hide TreeOk, NameIs, IsChain, SlotsOk, List, TailZero, Search, SearchName;
    if f == d {
      HereListed(t, u, d, e, a, l, b);
      FillKeepsTail(a, l, b, e);
      if SameName(name, other) {
        AddedFinds(t, u, d, s, e, name);
        SameSearch(List(u, d), name, other);
      } else if !Lookup(t, d, other).Found? {
        FillAddsOneName(a, l, b, e, name, other);
      }
    } else {
      OtherListed(t, u, d, s, e, f);
    }
  }

  lemma AppendedAddsOneName(t: Tree, u: Tree, d: nat, s: Slot, e: Entry, name: seq<byte>, f: nat, other: seq<byte>)
    requires Added(t, u, d, s, e) && NameIs(e.name, name) && !Lookup(t, d, name).Found? && Appended(t, u, d, s, e)
    requires TreeOk(u) && f in t.dirs && f in u.dirs && TailZero(List(t, f))
    ensures TailZero(List(u, f))
    ensures !Lookup(t, f, other).Found? && Lookup(u, f, other).Found? ==>
      f == d && SameName(name, other) && Lookup(u, f, other) == Found(s)
  {
    AppendedListed(t, u, d, s, e, f);
    if f == d {
      var zeros := ClusterList(s.cluster, ZeroCluster(t.per));
      var list := List(t, d);
      UnusedConcat(list, []);
      FirstOfCluster(t, u, d, s, e);
      hide TreeOk, NameIs, IsChain, SlotsOk, Grown, List, Search, SearchName;
      var l := Listed(s, ZERO_ENTRY);
      var b := zeros[1..];
      assert ListOk(b);
      assert List(u, d) == list + [Listed(s, e)] + b;
      ZerosBehind(list, l, b);
      FillKeepsTail(list, l, b, e);
      ThreeParts(list, l, b, other);
      ThreeParts(list, l, b, name);
      UsedNotEnded(list, other);
      UsedNotEnded(list, name);
      if SameName(name, other) {
        AddedFinds(t, u, d, s, e, name);
        SameSearch(List(u, d), name, other);
      } else if !Lookup(t, d, other).Found? {
        FillAddsOneName(list, l, b, e, name, other);
      }
    }
  }

  /** The appended cluster: the new entry and zeros. */
  lemma FirstOfCluster(t: Tree, u: Tree, d: nat, s: Slot, e: Entry)
    requires TreeOk(t) && TreeOk(u) && d in t.dirs && Appended(t, u, d, s, e)
    ensures s.cluster < |u.slots|
    ensures
      var zeros := ClusterList(s.cluster, ZeroCluster(t.per));
      && |zeros| == t.per > 0 && (forall i | 0 <= i < |zeros| :: zeros[i].entry == ZERO_ENTRY)
      && ClusterList(s.cluster, u.slots[s.cluster]) == [Listed(s, e)] + zeros[1..]
  {
  }

  lemma ZerosBehind(a: seq<Listed>, l: Listed, b: seq<Listed>)
    requires ListOk(a) && Unused(a).None? && l.entry == ZERO_ENTRY && forall i | 0 <= i < |b| :: b[i].entry == ZERO_ENTRY
    ensures ListOk(a + [l] + b) && TailZero(a + [l] + b)
  {
    var list := a + [l] + b;
    forall i, j | 0 <= i < j < |list| && list[i].entry.name[0] == 0
      ensures list[j].entry.name[0] == 0
    {
      if i < |a| {
        NoneUnused(a, i);
      }
    }
  }

  /** Whether a path is found depends on the new entry only if one of its ways comes by it. */
  lemma {:induction false} NoOtherPath(t: Tree, u: Tree, d: nat, s: Slot, e: Entry, name: seq<byte>, path: seq<byte>, dir: nat)
    requires Added(t, u, d, s, e) && NameIs(e.name, name) && !Lookup(t, d, name).Found?
    requires TailsZero(t) && IsDir(t, dir) && s !in Walk(t, path, dir)
    ensures TreeOk(u) && TailsZero(u) && IsDir(u, dir)
    ensures Find(t, path, dir).0.None? && Find(u, path, dir).0.Some? ==> s in Walk(u, path, dir)
    decreases |path|
  {
    hide *;
    AddedFacts(t, u, d, s, e);
    SameDir(t, u, d, s, e, dir);
    TailsStayZero(t, u, d, s, e, name);
    FindStep(t, path, dir);
    FindStep(u, path, dir);
    WalkStep(t, path, dir);
    WalkStep(u, path, dir);
    var start := if IsAbsolute(path) || dir == 0 then t.root else dir;
    var p := Relative(path);
    var k := FirstSlash(p);
    AddedAddsOneName(t, u, d, s, e, name, start, p[..k]);
    if Lookup(t, start, p[..k]).Found? {
      AddedKeeps(t, u, d, s, e, name, start, p[..k]);
      var r := Lookup(t, start, p[..k]).slot;
      if EntryAt(t, r).attr == DIRECTORY && k + 1 < |p| {
        var next := EntryAt(t, r).first;
        SameFirst(r, s, Walk(t, p[k + 1..], next), []);
        SameFirst(r, s, Walk(u, p[k + 1..], next), []);
        NoOtherPath(t, u, d, s, e, name, p[k + 1..], next);
      }
    } else if Lookup(u, start, p[..k]).Found? {
      WalkIn(s, [], s);
      WalkIn(s, Walk(u, path, dir)[1..], s);
    }
  }

  lemma TailsStayZero(t: Tree, u: Tree, d: nat, s: Slot, e: Entry, name: seq<byte>)
    requires Added(t, u, d, s, e) && NameIs(e.name, name) && !Lookup(t, d, name).Found? && TailsZero(t)
    ensures TreeOk(u) && TailsZero(u)
  {
    AddedTree(t, u, d, s, e);
    forall f | f in u.dirs
      ensures TailZero(List(u, f))
    {
      AddedAddsOneName(t, u, d, s, e, name, f, name);
    }
  }

  lemma AppendedKeeps(t: Tree, u: Tree, d: nat, s: Slot, e: Entry, f: nat, other: seq<byte>)
    requires Added(t, u, d, s, e) && Appended(t, u, d, s, e) && TreeOk(u)
    requires f in t.dirs && Lookup(t, f, other).Found?
    ensures Lookup(u, f, other) == Lookup(t, f, other) != Found(s)
    ensures EntryAt(u, Lookup(t, f, other).slot) == EntryAt(t, Lookup(t, f, other).slot)
  {
    FoundEntry(t, f, other);
    var r := Lookup(t, f, other).slot;
    AppendedListed(t, u, d, s, e, f);
    assert r.cluster != s.cluster by {
      InTheTable(t, f);
      var i :| 0 <= i < |t.dirs[f]| && t.dirs[f][i] == r.cluster;
      NextInChain(t.fat, t.dirs[f], i);
    }
    hide TreeOk, NameIs, IsChain, SlotsOk, Grown;
    if f == d {
      ScanConcat(List(t, d), ClusterList(s.cluster, u.slots[s.cluster]), other);
    }
  }

  /** A path that led to an entry takes the same way after another entry has been created if and only if its way did not come
      by the entry that has been overwritten; then it leads to the same entry. */
  lemma {:induction false} PathsKept(t: Tree, u: Tree, d: nat, s: Slot, e: Entry, name: seq<byte>,
                                     path: seq<byte>, dir: nat)
    requires Added(t, u, d, s, e) && NameIs(e.name, name) && !Lookup(t, d, name).Found?
    requires IsDir(t, dir) && Find(t, path, dir).0.Some?
    ensures TreeOk(u) && IsDir(u, dir)
    ensures Walk(u, path, dir) == Walk(t, path, dir) <==> s !in Walk(t, path, dir)
    ensures s !in Walk(t, path, dir) ==>
      Find(u, path, dir) == Find(t, path, dir) && EntryAt(u, Find(t, path, dir).0.value) == EntryAt(t, Find(t, path, dir).0.value)
    decreases |path|
  {
    hide *;
    AddedFacts(t, u, d, s, e);
    SameDir(t, u, d, s, e, dir);
    FindStep(t, path, dir);
    FindStep(u, path, dir);
    WalkStep(t, path, dir);
    WalkStep(u, path, dir);
    var start := if IsAbsolute(path) || dir == 0 then t.root else dir;
    var p := Relative(path);
    var k := FirstSlash(p);
    AddedKeeps(t, u, d, s, e, name, start, p[..k]);
    var r := Lookup(t, start, p[..k]).slot;
    if EntryAt(t, r).attr == DIRECTORY && k + 1 < |p| {
      var next := EntryAt(t, r).first;
      PathsKept(t, u, d, s, e, name, p[k + 1..], next);
      SameFirst(r, s, Walk(t, p[k + 1..], next), Walk(u, path, dir));
      WalkIn(r, Walk(u, p[k + 1..], next), s);
    } else {
      SameFirst(r, s, [], Walk(u, path, dir));
    }
  }

  lemma SameFirst(r: Slot, s: Slot, walk: seq<Slot>, other: seq<Slot>)
    ensures [r] + walk == other ==> other != [] && other[0] == r && other[1..] == walk
    ensures s in [r] + walk <==> s == r || s in walk
  {
  }

  lemma SameDir(t: Tree, u: Tree, d: nat, s: Slot, e: Entry, dir: nat)
    requires Added(t, u, d, s, e) && IsDir(t, dir)
    ensures IsDir(u, dir)
  {
    AddedTree(t, u, d, s, e);
  }

  /** A volume with one directory of one entry. */
  function OneEntry(e: Entry): Tree {
    Tree([END_OF_CHAIN, END_OF_CHAIN, END_OF_CHAIN], [[ZERO_ENTRY], [ZERO_ENTRY], [e]], map[2 := [2]], 2, 1)
  }

  lemma OneEntryOk(e: Entry)
    requires EntryOk(e) && e.attr != DIRECTORY
    ensures TreeOk(OneEntry(e)) && 2 in OneEntry(e).dirs && IsDir(OneEntry(e), 0)
    ensures List(OneEntry(e), 2) == [Listed(Slot(2, 0), e)]
  {
    var t := OneEntry(e);
    assert IsChain(t.fat, [2]);
    assert forall d, c, i | d in t.dirs && c in t.dirs[d] && 0 <= i < t.per :: LinkOk(t, c, i);
    assert TreeOk(t);
    OneCluster(t, 2);
  }

  /** An input: a file, deleted and still found, whose entry is the first unused one. Creating the file "A" makes its path
      lead nowhere. */
  lemma LostPath()
    ensures
      var path, name := [0xe5, 0x42, 0x43], [0x41];
      var gone, e := Entry(EntryName(path), 0, 0, 0), Entry(EntryName(name), 0, 0, 0);
      var t, u := OneEntry(gone), OneEntry(e);
      && Added(t, u, 2, Slot(2, 0), e) && Reused(t, u, 2, Slot(2, 0), e) && !Lookup(t, 2, name).Found?
      && IsDir(t, 0) && Find(t, path, 0) == (Some(Slot(2, 0)), false)
      && IsDir(u, 0) && Find(u, path, 0) == (None, false)
  {
    var path: seq<byte>, name: seq<byte> := [0xe5, 0x42, 0x43], [0x41];
    var gone, e := Entry(EntryName(path), 0, 0, 0), Entry(EntryName(name), 0, 0, 0);
    var t, u, s := OneEntry(gone), OneEntry(e), Slot(2, 0);
    PlainNameIsFound(path);
    PlainNameIsFound(name);
    FirstByte(path);
    FirstByte(name);
    OneEntryOk(gone);
    OneEntryOk(e);
    hide EntryName, SearchName, TreeOk, List, Find;
    assert t.slots[2][0 := e] == [e] && t.slots[2 := [e]] == u.slots;
    assert EntryName(path)[0] == 0xe5 && EntryName(name)[0] == 0x41;
    SearchOne(Listed(s, gone), path);
    SearchOne(Listed(s, gone), name);
    SearchOne(Listed(s, e), path);
    NoSlash(path);
    assert path[..3] == path;
    FindStep(t, path, 0);
    FindStep(u, path, 0);
  }

  lemma SearchOne(l: Listed, name: seq<byte>)
    requires EntryOk(l.entry)
    ensures ListOk([l]) && Search([l], name) ==
      if l.entry.name[0] == 0 then Ended else if NameIs(l.entry.name, name) then Found(l.slot) else Passed
  {
    assert [l][1..] == [];
  }

  lemma FirstByte(name: seq<byte>)
    requires name != [] && DOT !in name
    ensures EntryName(name)[0] == Upper(name[0])
  {
  }

  /** A path extended by a name has lost its way, too, if the path itself comes by the overwritten entry. */
  lemma {:induction false} LostParent(t: Tree, u: Tree, d: nat, s: Slot, e: Entry, name: seq<byte>,
                                      parent: seq<byte>, rest: seq<byte>, dir: nat)
    requires Added(t, u, d, s, e) && NameIs(e.name, name) && !Lookup(t, d, name).Found?
    requires IsDir(t, dir) && Relative(parent) != [] && parent[|parent| - 1] != SLASH
    requires Find(t, parent, dir).0.Some? && s in Walk(t, parent, dir)
    ensures TreeOk(u) && IsDir(u, dir) && !(Walk(t, parent, dir) <= Walk(u, parent + [SLASH] + rest, dir))
    decreases |parent|
  {
    hide *;
    AddedFacts(t, u, d, s, e);
    SameDir(t, u, d, s, e, dir);
    PathParts(parent, rest);
    var path := parent + [SLASH] + rest;
    FindStep(t, parent, dir);
    WalkStep(t, parent, dir);
    WalkStep(u, path, dir);
    var start := if IsAbsolute(parent) || dir == 0 then t.root else dir;
    var p := Relative(parent);
    var k := FirstSlash(p);
    AddedKeeps(t, u, d, s, e, name, start, p[..k]);
    var r := Lookup(t, start, p[..k]).slot;
    if EntryAt(t, r).attr == DIRECTORY && k + 1 < |p| {
      var next := EntryAt(t, r).first;
      SameFirst(r, s, Walk(t, p[k + 1..], next), []);
      if r != s {
        assert parent[|parent| - 1] == p[k + 1..][|p[k + 1..]| - 1] != SLASH;
        NotOnlySlash(p[k + 1..]);
        LostParent(t, u, d, s, e, name, p[k + 1..], rest, next);
        WalkIn(r, Walk(u, p[k + 1..] + [SLASH] + rest, next), s);
        WalkIn(r, Walk(t, p[k + 1..], next), s);
      }
      PrefixOf(Walk(t, parent, dir), Walk(u, path, dir));
    } else {
      SameFirst(r, s, [], []);
      PrefixOf(Walk(t, parent, dir), Walk(u, path, dir));
    }
  }

  lemma PrefixOf(a: seq<Slot>, b: seq<Slot>)
    requires a != []
    ensures a <= b ==> b != [] && b[0] == a[0] && a[1..] <= b[1..]
  {
  }

  /** An appended entry was not on any way. */
  lemma {:induction false} AppendedNotWalked(t: Tree, u: Tree, d: nat, s: Slot, e: Entry, path: seq<byte>, dir: nat)
    requires TreeOk(t) && d in t.dirs && Appended(t, u, d, s, e) && IsDir(t, dir)
    ensures s !in Walk(t, path, dir)
    decreases |path|
  {
    hide *;
    WalkStep(t, path, dir);
    var start := if IsAbsolute(path) || dir == 0 then t.root else dir;
    var p := Relative(path);
    var k := FirstSlash(p);
    FreeNotFound(t, d, s, u, e, start, p[..k]);
    if Lookup(t, start, p[..k]).Found? {
      var r := Lookup(t, start, p[..k]).slot;
      if EntryAt(t, r).attr == DIRECTORY && k + 1 < |p| {
        AppendedNotWalked(t, u, d, s, e, p[k + 1..], EntryAt(t, r).first);
        SameFirst(r, s, Walk(t, p[k + 1..], EntryAt(t, r).first), []);
      } else {
        SameFirst(r, s, [], []);
      }
    }
  }

  lemma FreeNotFound(t: Tree, d: nat, s: Slot, u: Tree, e: Entry, f: nat, other: seq<byte>)
    requires TreeOk(t) && d in t.dirs && Appended(t, u, d, s, e) && f in t.dirs
    ensures Lookup(t, f, other) != Found(s)
  {
    if Lookup(t, f, other) == Found(s) {
      FoundEntry(t, f, other);
      InTheTable(t, f);
      var i :| 0 <= i < |t.dirs[f]| && t.dirs[f][i] == s.cluster;
      NextInChain(t.fat, t.dirs[f], i);
    }
  }

  /** A plain name in a directory. */
  lemma FindPlain(t: Tree, name: seq<byte>, dir: nat)
    requires TreeOk(t) && IsDir(t, dir) && name != [] && SLASH !in name
    ensures
      var start := if dir == 0 then t.root else dir;
      start in t.dirs && (Lookup(t, start, name).Found? ==> Find(t, name, dir) == (Some(Lookup(t, start, name).slot), false))
    ensures Lookup(t, t.root, name).Found? ==> Find(t, [SLASH] + name, dir) == (Some(Lookup(t, t.root, name).slot), false)
    ensures !Lookup(t, t.root, name).Found? ==> Find(t, [SLASH] + name, dir) == (None, false)
  {
    assert ([SLASH] + name)[1..] == name;
    assert name[..|name|] == name;
    NoSlash(name);
    FindStep(t, name, dir);
    FindStep(t, [SLASH] + name, dir);
    hide Find, TreeOk;
  }

  lemma WalkPlain(t: Tree, name: seq<byte>, dir: nat)
    requires TreeOk(t) && dir in t.dirs && dir != 0 && name != [] && SLASH !in name
    ensures IsDir(t, dir) && (Lookup(t, dir, name).Found? ==> Walk(t, name, dir) == [Lookup(t, dir, name).slot])
  {
    assert name[..|name|] == name;
    NoSlash(name);
    WalkStep(t, name, dir);
    hide Walk, TreeOk;
  }

  lemma {:induction false} NoSlash(name: seq<byte>)
    requires SLASH !in name
    ensures FirstSlash(name) == |name|
  {
    if name != [] {
      NoSlash(name[1..]);
    }
  }

  /** The directory in which a path's last name is created. */
  ghost predicate ParentIs(t: Tree, parent: seq<byte>, d: nat)
    requires TreeOk(t)
  {
    if parent == [] then d == t.root
    else
      var f := Find(t, parent, 0).0;
      f.Some? && EntryAt(t, f.value).attr == DIRECTORY && EntryAt(t, f.value).first == d
  }

  /** Created and then looked for on the same path, an entry is found where it was created, also when its directory had
      to grow; the path of the directory must not end in a slash. It is found on the way to its directory and one step
      further if and only if that way did not come by the entry that has been overwritten. */
  lemma CreatedIsFound(t: Tree, u: Tree, parent: seq<byte>, d: nat, s: Slot, e: Entry, name: seq<byte>)
    requires Added(t, u, d, s, e) && NameIs(e.name, name) && !Lookup(t, d, name).Found?
    requires name != [] && SLASH !in name && TreeOk(t) && IsDir(t, 0)
    requires ParentIs(t, parent, d) && (parent != [] ==> parent[|parent| - 1] != SLASH)
    ensures TreeOk(u) && IsDir(u, 0)
    ensures parent == [] || s !in Walk(t, parent, 0) ==> Find(u, parent + [SLASH] + name, 0) == (Some(s), false)
    ensures parent == [] ==> Find(u, name, 0) == (Some(s), false)
    ensures parent != [] ==>
      (Walk(u, parent + [SLASH] + name, 0) == Walk(t, parent, 0) + [s] <==> s !in Walk(t, parent, 0))
  {
    hide *;
    AddedFacts(t, u, d, s, e);
    AddedFinds(t, u, d, s, e, name);
    if parent == [] {
      RootParent(t, d);
      FindPlain(u, name, 0);
      assert parent + [SLASH] + name == [SLASH] + name;
    } else {
      ParentFacts(t, parent, d);
      NotOnlySlash(parent);
      PathsKept(t, u, d, s, e, name, parent, 0);
      if s in Walk(t, parent, 0) {
        LostParent(t, u, d, s, e, name, parent, name, 0);
      } else {
        FindPlain(u, name, d);
        FindThrough(u, parent, name, 0);
        WalkThrough(u, parent, name, 0);
        WalkPlain(u, name, d);
      }
    }
  }

  lemma AddedFacts(t: Tree, u: Tree, d: nat, s: Slot, e: Entry)
    requires Added(t, u, d, s, e)
    ensures TreeOk(t) && TreeOk(u) && d in t.dirs && d in u.dirs && d != 0 && IsDir(u, d) && u.root == t.root
    ensures IsDir(t, 0) && IsDir(u, 0)
  {
    AddedTree(t, u, d, s, e);
  }

  lemma RootParent(t: Tree, d: nat)
    requires TreeOk(t) && ParentIs(t, [], d)
    ensures d == t.root
  {
  }

  lemma ParentFacts(t: Tree, parent: seq<byte>, d: nat)
    requires TreeOk(t) && ParentIs(t, parent, d) && parent != []
    ensures IsDir(t, 0) && Find(t, parent, 0).0.Some?
    ensures EntryAt(t, Find(t, parent, 0).0.value).attr == DIRECTORY && EntryAt(t, Find(t, parent, 0).0.value).first == d
  {
  }

  /** With two slashes before the name, an entry is created in one directory and looked for in another: the root. */
  lemma TwoSlashes(t: Tree, parent: seq<byte>, name: seq<byte>)
    requires TreeOk(t) && parent != [] && SLASH !in parent && name != [] && SLASH !in name
    requires Find(t, parent, 0).0.Some? && EntryAt(t, Find(t, parent, 0).0.value).attr == DIRECTORY
    ensures ParentIs(t, parent + [SLASH], EntryAt(t, Find(t, parent, 0).0.value).first)
    ensures Find(t, parent + [SLASH] + [SLASH] + name, 0) == Find(t, [SLASH] + name, 0)
  {
    hide *;
    NoSlash(parent);
    RootIsDir(t);
    FindStep(t, parent, 0);
    PlainParts(parent);
    PathParts(parent, []);
    PathParts(parent, [SLASH] + name);
    assert parent + [SLASH] + [] == parent + [SLASH];
    assert parent + [SLASH] + ([SLASH] + name) == parent + [SLASH] + [SLASH] + name;
    FindStep(t, parent + [SLASH], 0);
    FindStep(t, parent + [SLASH] + [SLASH] + name, 0);
    FromRoot(t, name, EntryAt(t, Find(t, parent, 0).0.value).first);
    MakeParentIs(t, parent + [SLASH]);
  }

  /** So it is found there if and only if the directory is the root. */
  lemma CreatedBehindTwoSlashes(t: Tree, u: Tree, parent: seq<byte>, d: nat, s: Slot, e: Entry, name: seq<byte>)
    requires Added(t, u, d, s, e) && NameIs(e.name, name) && !Lookup(t, d, name).Found?
    requires name != [] && SLASH !in name && TreeOk(t) && IsDir(t, 0) && s !in Walk(t, parent, 0)
    requires Relative(parent) != [] && parent[|parent| - 1] != SLASH && Find(t, parent, 0).0.Some?
    requires EntryAt(t, Find(t, parent, 0).0.value).attr == DIRECTORY && EntryAt(t, Find(t, parent, 0).0.value).first == d
    ensures TreeOk(u) && IsDir(u, 0)
    ensures Find(u, parent + [SLASH] + [SLASH] + name, 0).0 == Some(s) <==> d == u.root
  {
    hide *;
    AddedFacts(t, u, d, s, e);
    AddedFinds(t, u, d, s, e, name);
    PathsKept(t, u, d, s, e, name, parent, 0);
    FindThrough(u, parent, [SLASH] + name, 0);
    assert parent + [SLASH] + ([SLASH] + name) == parent + [SLASH] + [SLASH] + name;
    FindPlain(u, name, d);
    RootFinds(u, d, s, name);
  }

  /** No entry of another directory is found in the root. */
  lemma RootFinds(u: Tree, d: nat, s: Slot, name: seq<byte>)
    requires TreeOk(u) && d in u.dirs && Lookup(u, d, name) == Found(s)
    ensures u.root in u.dirs && (Lookup(u, u.root, name) == Found(s) <==> d == u.root)
  {
    FoundEntry(u, d, name);
    if d != u.root {
      assert Disjoint(u.dirs[d], u.dirs[u.root]);
      if Lookup(u, u.root, name).Found? {
        FoundEntry(u, u.root, name);
      }
    }
  }

  lemma PlainParts(parent: seq<byte>)
    requires parent != [] && SLASH !in parent
    ensures Relative(parent) == parent && !IsAbsolute(parent)
  {
  }

  lemma FromRoot(t: Tree, name: seq<byte>, dir: nat)
    requires TreeOk(t) && IsDir(t, dir)
    ensures IsDir(t, 0) && Find(t, [SLASH] + name, dir) == Find(t, [SLASH] + name, 0)
  {
    FindStep(t, [SLASH] + name, dir);
    FindStep(t, [SLASH] + name, 0);
    hide Find, TreeOk, Lookup;
  }

  lemma MakeParentIs(t: Tree, parent: seq<byte>)
    requires TreeOk(t) && parent != [] && IsDir(t, 0) && Find(t, parent, 0).0.Some?
    requires EntryAt(t, Find(t, parent, 0).0.value).attr == DIRECTORY
    ensures ParentIs(t, parent, EntryAt(t, Find(t, parent, 0).0.value).first)
  {
  }

  // ---- The operations ----------------------------------------------------------------------

  datatype Created = Created(slot: Slot) | NoSuchEntry | IsDirectory

  lemma ClusterListOk(slots: seq<seq<Entry>>, c: nat, per: nat)
    requires SlotsOk(slots, per) && c < |slots|
    ensures |slots[c]| == per && ListOk(ClusterList(c, slots[c]))
  {
    assert ClusterOk(slots[c], per);
  }

  class Directories {
    const table: Table
    const slots: array<seq<Entry>>
    const root: nat
    const per: nat
    ghost var dirs: map<nat, seq<nat>>

    ghost constructor (table: Table, slots: array<seq<Entry>>, root: nat, per: nat, dirs: map<nat, seq<nat>>)
      ensures this.table == table && this.slots == slots && this.root == root && this.per == per && this.dirs == dirs
    {
      this.table, this.slots, this.root, this.per, this.dirs := table, slots, root, per, dirs;
    }

    ghost function Now(): Tree
      reads `dirs, table.fat, slots
    {
      Tree(table.fat[..], slots[..], dirs, root, per)
    }

    /** The inner loop of Findfile. */
    method SearchCluster(c: nat, name: seq<byte>) returns (r: Scan)
      requires SlotsOk(slots[..], per) && c < slots.Length
      ensures |slots[c]| == per && ListOk(ClusterList(c, slots[c])) && r == Search(ClusterList(c, slots[c]), name)
    {
      ClusterListOk(slots[..], c, per);
      ghost var list := ClusterList(c, slots[c]);
      var i := 0;
      while i < per
        invariant 0 <= i <= per && Search(list[i..], name) == Search(list, name)
      {
        var entry := slots[c][i];
        assert list[i..][0] == list[i] && list[i..][1..] == list[i + 1..];
        assert EntryOk(list[i].entry);
        if entry.name[0] == 0 {
          return Ended;
        }
        var same := NameIsEqual(entry.name, name);
        if same {
          return Found(Slot(c, i));
        }
        i := i + 1;
      }
      return Passed;
    }

    /** The inner loop of AllocateEntry. */
    method UnusedInCluster(c: nat) returns (r: Option<Slot>)
      requires SlotsOk(slots[..], per) && c < slots.Length
      ensures |slots[c]| == per && ListOk(ClusterList(c, slots[c])) && r == Unused(ClusterList(c, slots[c]))
    {
      ClusterListOk(slots[..], c, per);
      ghost var list := ClusterList(c, slots[c]);
      var i := 0;
      while i < per
        invariant 0 <= i <= per && Unused(list[i..]) == Unused(list)
      {
        assert list[i..][0] == list[i] && list[i..][1..] == list[i + 1..];
        assert EntryOk(list[i].entry);
        if slots[c][i].name[0] == 0 || slots[c][i].name[0] == 0xe5 {
          return Some(Slot(c, i));
        }
        i := i + 1;
      }
      return None;
    }

    /** The outer loop of Findfile. */
    method FindInDirectory(d: nat, name: seq<byte>) returns (r: Scan)
      requires TreeOk(Now()) && d in dirs
      ensures r.Found? == Lookup(Now(), d, name).Found? && (r.Found? ==> r == Lookup(Now(), d, name))
    {
      ghost var t, chain := Now(), dirs[d];
      InTheTable(t, d);
      RestStart(t, d);
      ListingOk(t.slots, chain, per);
      hide TreeOk, IsChain, NoRepeats, SlotsOk;
      var cluster := d;
      ghost var j := 0;
      while cluster != END_OF_CHAIN
        invariant At(t, chain, j, cluster)
        invariant j <= |chain| && ListOk(Listing(t.slots, chain[j..]))
        invariant Search(Listing(t.slots, chain[j..]), name) == Lookup(t, d, name)
        decreases |chain| - j
      {
        RestStep(t, d, chain, j, cluster);
        var scan := SearchCluster(cluster, name);
        ScanConcat(ClusterList(cluster, t.slots[cluster]), Listing(t.slots, chain[j + 1..]), name);
        if scan.Ended? {
          return Ended;
        } else if scan.Found? {
          return scan;
        }
        cluster := table.NextCluster(cluster);
        j := j + 1;
      }
      RestEnd(t, d, chain, j, cluster);
      return Passed;
    }

    /** fat::Findfile. */
    method Findfile(path: seq<byte>, dir: nat) returns (found: Option<Slot>, slash: bool)
      requires TreeOk(Now()) && IsDir(Now(), dir)
      ensures (found, slash) == Find(Now(), path, dir)
      decreases |path|
    {
      hide TreeOk, IsDir, Find, Lookup, NameIs, EntryOk, FirstSlash, Relative, IsAbsolute, Search, List;
      ghost var t := Now();
      FindStep(t, path, dir);
      var start := if IsAbsolute(path) || dir == 0 then root else dir;
      var p := Relative(path);
      var k := FirstSlash(p);
      var scan := FindInDirectory(start, p[..k]);
      if !scan.Found? {
        return None, k < |p|;
      }
      FoundEntry(t, start, p[..k]);
      var entry := slots[scan.slot.cluster][scan.slot.index];
      if entry.attr == DIRECTORY && k + 1 < |p| {
        found, slash := Findfile(p[k + 1..], entry.first);
      } else {
        found, slash := Some(scan.slot), k < |p|;
      }
    }

    /** The first loop of AllocateEntry; without an unused entry it ends at the last cluster. */
    method FindUnused(d: nat) returns (r: Option<Slot>, cluster: nat)
      requires TreeOk(Now()) && d in dirs
      ensures r == Unused(List(Now(), d)) && dirs[d] != [] && (r.None? ==> cluster == Last(dirs[d]))
    {
      ghost var t, chain := Now(), dirs[d];
      InTheTable(t, d);
      RestStart(t, d);
      ListingOk(t.slots, chain, per);
      hide TreeOk, IsChain, NoRepeats, SlotsOk;
      cluster := d;
      ghost var j := 0;
      while true
        invariant At(t, chain, j, cluster) && cluster != END_OF_CHAIN
        invariant j <= |chain| && ListOk(Listing(t.slots, chain[j..]))
        invariant Unused(Listing(t.slots, chain[j..])) == Unused(List(t, d))
        decreases |chain| - j
      {
        RestStep(t, d, chain, j, cluster);
        r := UnusedInCluster(cluster);
        UnusedConcat(ClusterList(cluster, t.slots[cluster]), Listing(t.slots, chain[j + 1..]));
        if r.Some? {
          return;
        }
        var next := table.NextCluster(cluster);
        if next == END_OF_CHAIN {
          RestEnd(t, d, chain, j + 1, next);
          return;
        }
        cluster := next;
        j := j + 1;
      }
    }

    /** The first unused entry of a directory, or the first of a new cluster of zeros. */
    method AllocateEntry(d: nat) returns (s: Slot)
      requires TreeOk(Now()) && d in dirs
      requires Unused(List(Now(), d)).None? ==> |FirstFree(table.fat[..], 2, 1)| == 1
      modifies `dirs, table.fat, slots
      ensures old(Unused(List(Now(), d))).Some? ==> Now() == old(Now()) && Some(s) == old(Unused(List(Now(), d)))
      ensures old(Unused(List(Now(), d))).None? ==>
        && s.index == 0 && Free(old(table.fat[..]), s.cluster) && s.cluster < slots.Length
        && Grown(old(table.fat[..]), table.fat[..], old(dirs)[d], [s.cluster])
        && slots[..] == old(slots[..])[s.cluster := ZeroCluster(per)] && dirs == old(dirs)[d := old(dirs)[d] + [s.cluster]]
    {
      ghost var t, chain := Now(), dirs[d];
      InTheTable(t, d);
      TreeTable(t);
      hide TreeOk, IsChain, NoRepeats, SlotsOk, Grown, List;
      var r, cluster := FindUnused(d);
      if r.Some? {
        return r.value;
      }
      OneFree(t.fat);
      var last := table.ExtendCluster(cluster, 1, chain, |chain| - 1);
      assert last == FirstFree(t.fat, 2, 1)[0];
      slots[last] := seq(per, _ => ZERO_ENTRY);
      dirs := dirs[d := chain + [last]];
      return Slot(last, 0);
    }

    /** The last part of CreateFile: an entry is allocated, named and emptied; its other fields stay. */
    method Fill(d: nat, name: seq<byte>) returns (s: Slot)
      requires TreeOk(Now()) && d in dirs
      requires Unused(List(Now(), d)).None? ==> |FirstFree(table.fat[..], 2, 1)| == 1
      modifies `dirs, table.fat, slots
      ensures var e := EntryAt(Now(), s);
        && (Reused(old(Now()), Now(), d, s, e) || Appended(old(Now()), Now(), d, s, e))
        && EntryOk(e) && e.name == EntryName(name) && e.size == 0 && OtherFieldsKept(old(Now()), d, s, e)
    {
      hide *;
      ghost var t := Now();
      NowIs();
      s := AllocateEntry(d);
      ghost var m := Now();
      NowIs();
      MakeAllocated(t, m, d, s);
      AllocatedSlot(t, m, d, s);
      var entryName := SetFileName(name);
      var e := slots[s.cluster][s.index].(name := entryName, size := 0);
      slots[s.cluster] := slots[s.cluster][s.index := e];
      NowIs();
      assert slots[..] == m.slots[s.cluster := m.slots[s.cluster][s.index := e]];
      FilledIs(t, m, Now(), d, s, name, e);
    }

    lemma NowIs()
      ensures Now() == Tree(table.fat[..], slots[..], dirs, root, per)
    {
    }

    /** fat::CreateFile. */
    method CreateFile(path: seq<byte>) returns (r: Created)
      requires TreeOk(Now()) && ParentOk(Now(), path)
      requires
        var d := ParentDir(Now(), Parent(path));
        d in dirs && Unused(List(Now(), d)).None? ==> |FirstFree(table.fat[..], 2, 1)| == 1
      modifies `dirs, table.fat, slots
      ensures r == IsDirectory <==> LastSlash(path) == |path| - 1
      ensures r == NoSuchEntry <==>
        LastSlash(path) != |path| - 1 && Parent(path) != [] && old(Find(Now(), Parent(path), 0).0).None?
      ensures !r.Created? ==> Now() == old(Now())
      ensures r.Created? ==>
        var t, e := old(Now()), EntryAt(Now(), r.slot);
        var d := ParentDir(t, Parent(path));
        && d in t.dirs && (Reused(t, Now(), d, r.slot, e) || Appended(t, Now(), d, r.slot, e))
        && e.name == EntryName(Base(path)) && e.size == 0 && OtherFieldsKept(t, d, r.slot, e)
      ensures r.Created? && NewName(old(Now()), path) ==>
        && Added(old(Now()), Now(), ParentDir(old(Now()), Parent(path)), r.slot, EntryAt(Now(), r.slot))
        && TreeOk(Now()) && IsDir(Now(), 0)
        && forall other | SameLetters(path, other) :: Find(Now(), other, 0) == (Some(r.slot), false)
    {
      ghost var t := Now();
      ParentFound(t, path);
      hide TreeOk, Find, Lookup, ParentOk, ParentDir, ParentIs, NewName, List, Unused, LastSlash, IsDir, Appended, Reused,
        Added, SameLetters, OtherFieldsKept;
      var parentCluster := root;
      var slash := LastSlash(path);
      if slash < |path| {
        if slash == |path| - 1 {
          return IsDirectory;
        }
        if Parent(path) != [] {
          RootIsDir(t);
          var found, _ := Findfile(Parent(path), 0);
          if found.None? {
            return NoSuchEntry;
          }
          FoundSlot(t, Parent(path), 0);
          parentCluster := slots[found.value.cluster][found.value.index].first;
        }
      }
      var s := Fill(parentCluster, Base(path));
      if NewName(t, path) {
        CreatedOnPath(t, Now(), path, s, EntryAt(Now(), s));
      }
      return Created(s);
    }
  }

  /** The last slash of a path, or its length. */
  function LastSlash(path: seq<byte>): (r: nat)
    ensures r <= |path| && (r < |path| ==> path[r] == SLASH)
  {
    if path == [] then 0
    else
      var r := LastSlash(path[1..]);
      if r < |path| - 1 then r + 1 else if path[0] == SLASH then 0 else |path|
  }

  lemma {:induction false} NoSlashBehind(path: seq<byte>)
    ensures forall i | 0 <= i < |path| && (LastSlash(path) == |path| || LastSlash(path) < i) :: path[i] != SLASH
  {
    if path != [] {
      NoSlashBehind(path[1..]);
      assert forall i | 1 <= i < |path| :: path[i] == path[1..][i - 1];
    }
  }

  function Parent(path: seq<byte>): seq<byte> {
    if LastSlash(path) < |path| then path[..LastSlash(path)] else []
  }

  function Base(path: seq<byte>): seq<byte> {
    if LastSlash(path) < |path| then path[LastSlash(path) + 1..] else path
  }

  /** The cluster a new entry's directory begins at: the root, or what the entry of the path before the name says. */
  ghost function ParentDir(t: Tree, parent: seq<byte>): nat
    requires TreeOk(t)
  {
    if parent == [] then t.root
    else if Find(t, parent, 0).0.Some? then EntryAt(t, Find(t, parent, 0).0.value).first
    else 0
  }

  /** The directory of a path, if it exists, is one and has a cluster of its own. */
  ghost predicate ParentOk(t: Tree, path: seq<byte>)
    requires TreeOk(t)
  {
    Parent(path) != [] && Find(t, Parent(path), 0).0.Some? ==>
      EntryAt(t, Find(t, Parent(path), 0).0.value).attr == DIRECTORY && ParentDir(t, Parent(path)) in t.dirs
  }

  lemma ParentFound(t: Tree, path: seq<byte>)
    requires TreeOk(t) && ParentOk(t, path)
    ensures Parent(path) == [] ==> ParentDir(t, []) == t.root && t.root in t.dirs && ParentIs(t, [], t.root)
    ensures Parent(path) != [] && Find(t, Parent(path), 0).0.Some? ==>
      && ParentDir(t, Parent(path)) == EntryAt(t, Find(t, Parent(path), 0).0.value).first
      && ParentDir(t, Parent(path)) in t.dirs
      && ParentIs(t, Parent(path), ParentDir(t, Parent(path)))
  {
  }

  /** The way to a directory comes by the deleted entry of that directory that will be used next. */
  ghost predicate ByUnused(t: Tree, parent: seq<byte>, d: nat)
    requires TreeOk(t) && d in t.dirs
  {
    IsDir(t, 0) && Unused(List(t, d)).Some? && Unused(List(t, d)).value in Walk(t, parent, 0)
  }

  /** A valid name that is not in the directory of its path yet; that path does not end in a slash of its own, and does not
      come by the entry that will be overwritten. */
  ghost predicate NewName(t: Tree, path: seq<byte>)
    requires TreeOk(t)
  {
    && Valid83(Base(path)) && (Parent(path) != [] ==> Parent(path)[|Parent(path)| - 1] != SLASH)
    && ParentDir(t, Parent(path)) in t.dirs && !Lookup(t, ParentDir(t, Parent(path)), Base(path)).Found?
    && (Parent(path) == [] || !ByUnused(t, Parent(path), ParentDir(t, Parent(path))))
  }

  lemma NewNameFacts(t: Tree, path: seq<byte>)
    requires TreeOk(t) && NewName(t, path)
    ensures Base(path) != [] && SLASH !in Base(path) && NameIs(EntryName(Base(path)), Base(path))
    ensures EntryName(Base(path))[0] != 0 && EntryName(Base(path))[0] != 0xe5
    ensures Parent(path) != [] ==> Parent(path)[|Parent(path)| - 1] != SLASH
    ensures ParentDir(t, Parent(path)) in t.dirs && (Parent(path) == [] || !ByUnused(t, Parent(path), ParentDir(t, Parent(path))))
    ensures !Lookup(t, ParentDir(t, Parent(path)), Base(path)).Found?
  {
    hide SearchName, LastSlash;
    NoSlashBehind(path);
    ValidNameIsFound(Base(path));
  }

  lemma PathIs(path: seq<byte>)
    ensures path == if LastSlash(path) < |path| then Parent(path) + [SLASH] + Base(path) else Base(path)
    ensures LastSlash(path) == |path| ==> Parent(path) == []
  {
    hide LastSlash;
    if LastSlash(path) < |path| {
      SplitAt(path, LastSlash(path));
    }
  }

  lemma SplitAt(path: seq<byte>, k: nat)
    requires k < |path|
    ensures path == path[..k] + [path[k]] + path[k + 1..]
  {
  }

  lemma MakeAdded(t: Tree, u: Tree, d: nat, s: Slot, e: Entry)
    requires TreeOk(t) && d in t.dirs && EntryOk(e) && (Reused(t, u, d, s, e) || Appended(t, u, d, s, e))
    requires e.name[0] != 0 && e.name[0] != 0xe5
    ensures Added(t, u, d, s, e)
  {
  }

  /** A created entry with a valid name that was not there is found on its path. */
  lemma CreatedOnPath(t: Tree, u: Tree, path: seq<byte>, s: Slot, e: Entry)
    requires TreeOk(t) && ParentOk(t, path) && (Parent(path) != [] ==> Find(t, Parent(path), 0).0.Some?)
    requires
      var d := ParentDir(t, Parent(path));
      d in t.dirs && EntryOk(e) && (Reused(t, u, d, s, e) || Appended(t, u, d, s, e))
    requires e.name == EntryName(Base(path)) && NewName(t, path)
    ensures Added(t, u, ParentDir(t, Parent(path)), s, e)
    ensures TreeOk(u) && IsDir(u, 0) && forall other | SameLetters(path, other) :: Find(u, other, 0) == (Some(s), false)
  {
    hide *;
    NewNameFacts(t, path);
    MakeAdded(t, u, ParentDir(t, Parent(path)), s, e);
    PathIs(path);
    ParentFound(t, path);
    RootIsDir(t);
    if Parent(path) != [] {
      NotByUnused(t, u, Parent(path), ParentDir(t, Parent(path)), s, e);
    }
    CreatedIsFound(t, u, Parent(path), ParentDir(t, Parent(path)), s, e, Base(path));
    forall other | SameLetters(path, other)
      ensures Find(u, other, 0) == (Some(s), false)
    {
      FindAnyCase(u, path, other, 0);
    }
  }

  lemma NotByUnused(t: Tree, u: Tree, parent: seq<byte>, d: nat, s: Slot, e: Entry)
    requires TreeOk(t) && d in t.dirs && IsDir(t, 0) && (Reused(t, u, d, s, e) || Appended(t, u, d, s, e))
    requires !ByUnused(t, parent, d)
    ensures s !in Walk(t, parent, 0)
  {
    hide TreeOk, Walk, List, Unused;
    if Appended(t, u, d, s, e) {
      AppendedNotWalked(t, u, d, s, e, parent, 0);
    }
  }

  /** Attribute and first cluster are those of the entry that is reused, or zero. */
  ghost predicate OtherFieldsKept(t: Tree, d: nat, s: Slot, e: Entry)
    requires TreeOk(t) && d in t.dirs
  {
    if Unused(List(t, d)).Some? then e.attr == EntryAt(t, s).attr && e.first == EntryAt(t, s).first
    else e.attr == 0 && e.first == 0
  }

  /** What AllocateEntry leaves: the first unused entry, or a cluster of zeros behind the directory. */
  ghost predicate Allocated(t: Tree, m: Tree, d: nat, s: Slot)
    requires TreeOk(t) && d in t.dirs
  {
    if Unused(List(t, d)).Some? then m == t && Some(s) == Unused(List(t, d))
    else
      && s.index == 0 && Free(t.fat, s.cluster) && s.cluster < |t.slots|
      && Grown(t.fat, m.fat, t.dirs[d], [s.cluster])
      && m == Tree(m.fat, t.slots[s.cluster := ZeroCluster(t.per)], t.dirs[d := t.dirs[d] + [s.cluster]], t.root, t.per)
  }

  lemma MakeAllocated(t: Tree, m: Tree, d: nat, s: Slot)
    requires TreeOk(t) && d in t.dirs
    requires Unused(List(t, d)).Some? ==> m == t && Some(s) == Unused(List(t, d))
    requires Unused(List(t, d)).None? ==>
      && s.index == 0 && Free(t.fat, s.cluster) && s.cluster < |t.slots|
      && Grown(t.fat, m.fat, t.dirs[d], [s.cluster]) && m.root == t.root && m.per == t.per
      && m.slots == t.slots[s.cluster := ZeroCluster(t.per)] && m.dirs == t.dirs[d := t.dirs[d] + [s.cluster]]
    ensures Allocated(t, m, d, s)
  {
    hide TreeOk, List, Unused, Grown, Free;
  }

  lemma AllocatedSlot(t: Tree, m: Tree, d: nat, s: Slot)
    requires TreeOk(t) && d in t.dirs && Allocated(t, m, d, s)
    ensures s.cluster < |m.slots| && s.index < |m.slots[s.cluster]|
  {
    UnusedIsEntry(t, d);
    hide TreeOk, List, Unused, Grown, Free;
  }

  lemma FilledIs(t: Tree, m: Tree, u: Tree, d: nat, s: Slot, name: seq<byte>, e: Entry)
    requires TreeOk(t) && d in t.dirs && Allocated(t, m, d, s) && s.cluster < |m.slots| && s.index < |m.slots[s.cluster]|
    requires e == m.slots[s.cluster][s.index].(name := EntryName(name), size := 0)
    requires u == m.(slots := m.slots[s.cluster := m.slots[s.cluster][s.index := e]])
    ensures EntryAt(u, s) == e && (Reused(t, u, d, s, e) || Appended(t, u, d, s, e))
    ensures EntryOk(e) && e.name == EntryName(name) && e.size == 0 && OtherFieldsKept(t, d, s, e)
  {
    UnusedIsEntry(t, d);
    hide TreeOk, List, Unused, Grown, Free, EntryName;
    if Unused(List(t, d)).None? {
      assert u.slots == t.slots[s.cluster := ZeroCluster(t.per)[0 := e]];
    }
  }

  lemma UnusedIsEntry(t: Tree, d: nat)
    requires TreeOk(t) && d in t.dirs
    ensures t.per > 0
    ensures Unused(List(t, d)).Some? ==>
      var s := Unused(List(t, d)).value;
      s.cluster < |t.slots| && s.index < |t.slots[s.cluster]|
  {
    if Unused(List(t, d)).Some? {
      var a, l, b := ReusedListed(t, d);
    }
  }

  /** A path leads to an entry of a cluster. */
  lemma {:induction false} FoundSlot(t: Tree, path: seq<byte>, dir: nat)
    requires TreeOk(t) && IsDir(t, dir) && Find(t, path, dir).0.Some?
    ensures
      var s := Find(t, path, dir).0.value;
      s.cluster < |t.slots| && s.index < |t.slots[s.cluster]| && EntryAt(t, s) == t.slots[s.cluster][s.index]
    decreases |path|
  {
    hide TreeOk, IsDir, Lookup, NameIs, EntryOk, FirstSlash, Relative, IsAbsolute, Find;
    var start := if IsAbsolute(path) || dir == 0 then t.root else dir;
    var p := Relative(path);
    var k := FirstSlash(p);
    FindStep(t, path, dir);
    FoundEntry(t, start, p[..k]);
    var s := Lookup(t, start, p[..k]).slot;
    if EntryAt(t, s).attr == DIRECTORY && k + 1 < |p| {
      FoundSlot(t, p[k + 1..], EntryAt(t, s).first);
    }
  }

  lemma RootIsDir(t: Tree)
    requires TreeOk(t)
    ensures IsDir(t, 0)
  {
  }

  lemma OneFree(fat: seq<nat>)
    requires |FirstFree(fat, 2, 1)| == 1
    ensures Free(fat, FirstFree(fat, 2, 1)[0]) && FirstFree(fat, 2, 1) == [FirstFree(fat, 2, 1)[0]]
  {
    FirstFreeMembers(fat, 2, 1);
  }

  lemma TreeTable(t: Tree)
    requires TreeOk(t)
    ensures TableOk(t.fat) && |t.slots| == |t.fat|
  {
  }

  /** A walk along the chain of a directory has come to its j-th cluster. */
  ghost predicate At(t: Tree, chain: seq<nat>, j: nat, cluster: nat) {
    j <= |chain| && cluster == if j < |chain| then chain[j] else END_OF_CHAIN
  }

  lemma RestStart(t: Tree, d: nat)
    requires TreeOk(t) && d in t.dirs
    ensures At(t, t.dirs[d], 0, d) && t.dirs[d][0..] == t.dirs[d] && SlotsOk(t.slots, t.per) && |t.slots| == |t.fat|
  {
  }

  lemma RestStep(t: Tree, d: nat, chain: seq<nat>, j: nat, cluster: nat)
    requires TreeOk(t) && d in t.dirs && chain == t.dirs[d] && At(t, chain, j, cluster) && cluster != END_OF_CHAIN
    ensures j < |chain| && cluster < |t.slots| == |t.fat| && ChainIn(chain[j..], |t.slots|)
    ensures ChainIn(chain[j + 1..], |t.slots|)
    ensures Listing(t.slots, chain[j..]) == ClusterList(cluster, t.slots[cluster]) + Listing(t.slots, chain[j + 1..])
    ensures At(t, chain, j + 1, if IsEnd(t.fat[cluster]) then END_OF_CHAIN else t.fat[cluster])
    ensures ListOk(Listing(t.slots, chain[j + 1..])) && ListOk(ClusterList(cluster, t.slots[cluster]))
    ensures SlotsOk(t.slots, t.per) && Last(chain) == chain[|chain| - 1]
  {
    InTheTable(t, d);
    NextInChain(t.fat, chain, j);
    assert chain[j..][0] == cluster && chain[j..][1..] == chain[j + 1..];
    ListingOk(t.slots, chain[j + 1..], t.per);
    ClusterListOk(t.slots, cluster, t.per);
  }

  lemma RestEnd(t: Tree, d: nat, chain: seq<nat>, j: nat, cluster: nat)
    requires TreeOk(t) && d in t.dirs && chain == t.dirs[d] && At(t, chain, j, cluster) && cluster == END_OF_CHAIN
    ensures j == |chain| && chain[j..] == [] && ChainIn(chain[j..], |t.slots|) && Listing(t.slots, chain[j..]) == []
  {
    if j < |chain| {
      InTheTable(t, d);
      NextInChain(t.fat, chain, j);
    }
  }
}
