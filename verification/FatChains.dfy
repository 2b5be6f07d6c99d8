/** Cluster chains in the file allocation table (Kernel/fat.cpp). */
module FatChains {

  const END_OF_CHAIN: nat := 0x0fffffff

  predicate IsEnd(entry: nat) {
    entry >= 0x0ffffff8
  }

  predicate InTable(fat: seq<nat>, c: nat) {
    2 <= c < |fat|
  }

  /** The table is small enough for every cluster number to differ from the end marks. */
  predicate TableOk(fat: seq<nat>) {
    2 <= |fat| <= 0x0ffffff8
  }

  /** A whole chain: each cluster's entry is the next one, the last entry is an end mark. */
  ghost predicate IsChain(fat: seq<nat>, s: seq<nat>) {
    && |s| > 0
    && (forall i | 0 <= i < |s| :: InTable(fat, s[i]))
    && (forall i {:trigger fat[s[i]]} | 0 <= i < |s| - 1 :: fat[s[i]] == s[i + 1])
    && IsEnd(fat[s[|s| - 1]])
  }

  ghost predicate Disjoint(s: seq<nat>, t: seq<nat>) {
    forall i, j | 0 <= i < |s| && 0 <= j < |t| :: s[i] != t[j]
  }

  ghost predicate NoRepeats(s: seq<nat>) {
    forall i, j | 0 <= i < j < |s| :: s[i] != s[j]
  }

  lemma NextInChain(fat: seq<nat>, s: seq<nat>, i: nat)
    requires TableOk(fat) && IsChain(fat, s) && i < |s|
    ensures fat[s[i]] != 0
    ensures IsEnd(fat[s[i]]) <==> i == |s| - 1
    ensures i < |s| - 1 ==> fat[s[i]] == s[i + 1]
  {
    if i < |s| - 1 {
      assert InTable(fat, s[i + 1]);
    }
  }

  /** From one cluster, the rest of the chain is determined. */
  lemma {:induction false} SameRest(fat: seq<nat>, s: seq<nat>, t: seq<nat>, i: nat, j: nat)
    requires TableOk(fat) && IsChain(fat, s) && IsChain(fat, t) && i < |s| && j < |t| && s[i] == t[j]
    ensures s[i..] == t[j..]
    decreases |s| - i
  {
    NextInChain(fat, s, i);
    NextInChain(fat, t, j);
    if i < |s| - 1 {
      SameRest(fat, s, t, i + 1, j + 1);
      assert s[i..] == [s[i]] + s[i + 1..] && t[j..] == [t[j]] + t[j + 1..];
    }
  }

  /** A finite chain has no cycle. */
  lemma Acyclic(fat: seq<nat>, s: seq<nat>)
    requires TableOk(fat) && IsChain(fat, s)
    ensures NoRepeats(s)
  {
    forall i, j | 0 <= i < j < |s|
      ensures s[i] != s[j]
    {
      if s[i] == s[j] {
        SameRest(fat, s, s, i, j);
      }
    }
  }

  // ---- Free clusters ------------------------------------------------------------------

  predicate Free(fat: seq<nat>, c: nat) {
    InTable(fat, c) && fat[c] == 0
  }

  /** The first n free clusters from a number on, or as many as there are. */
  function FirstFree(fat: seq<nat>, from: nat, n: nat): (r: seq<nat>)
    requires from >= 2
    ensures |r| <= n
    decreases |fat| - from
  {
    if n == 0 || from >= |fat| then []
    else if fat[from] == 0 then [from] + FirstFree(fat, from + 1, n - 1)
    else FirstFree(fat, from + 1, n)
  }

  lemma {:induction false} FirstFreeMembers(fat: seq<nat>, from: nat, n: nat)
    requires from >= 2
    ensures forall i | 0 <= i < |FirstFree(fat, from, n)| ::
      Free(fat, FirstFree(fat, from, n)[i]) && from <= FirstFree(fat, from, n)[i]
    ensures forall i, j | 0 <= i < j < |FirstFree(fat, from, n)| :: FirstFree(fat, from, n)[i] < FirstFree(fat, from, n)[j]
    decreases |fat| - from
  {
    if n > 0 && from < |fat| {
      FirstFreeMembers(fat, from + 1, if fat[from] == 0 then n - 1 else n);
    }
  }

  lemma NextFree(fat: seq<nat>, from: nat, add: seq<nat>, k: nat)
    requires from >= 2 && k < |add| && add[k..] == FirstFree(fat, from, |add| - k)
    ensures from < |fat|
    ensures fat[from] == 0 ==> add[k] == from && add[k + 1..] == FirstFree(fat, from + 1, |add| - k - 1)
    ensures fat[from] != 0 ==> add[k..] == FirstFree(fat, from + 1, |add| - k)
  {
    assert add[k + 1..] == add[k..][1..];
  }

  /** They are the lowest ones, and fewer than n only when all free clusters are taken. */
  lemma {:induction false} LowestFree(fat: seq<nat>, from: nat, n: nat, c: nat)
    requires from >= 2 && from <= c && Free(fat, c) && c !in FirstFree(fat, from, n)
    ensures |FirstFree(fat, from, n)| == n
    ensures forall i | 0 <= i < n :: FirstFree(fat, from, n)[i] < c
    decreases |fat| - from
  {
    if n > 0 {
      if fat[from] == 0 {
        var s, r := FirstFree(fat, from, n), FirstFree(fat, from + 1, n - 1);
        assert s == [from] + r && s[0] == from;
        assert c !in r;
        LowestFree(fat, from + 1, n - 1, c);
        forall i | 0 <= i < n
          ensures s[i] < c
        {
          assert i > 0 ==> s[i] == r[i - 1];
        }
      } else {
        LowestFree(fat, from + 1, n, c);
      }
    }
  }

  lemma HeadLowest(fat: seq<nat>, from: nat, n: nat, c: nat)
    requires from >= 2 && n > 0 && from <= c && Free(fat, c)
    ensures FirstFree(fat, from, n) != [] && FirstFree(fat, from, n)[0] <= c
  {
    FirstFreeMembers(fat, from, n);
    if c !in FirstFree(fat, from, n) {
      LowestFree(fat, from, n, c);
    }
  }

  lemma {:induction false} SameFree(fat: seq<nat>, now: seq<nat>, from: nat, n: nat)
    requires |now| == |fat| && from >= 2
    requires forall c | from <= c < |fat| :: fat[c] == 0 <==> now[c] == 0
    ensures FirstFree(now, from, n) == FirstFree(fat, from, n)
    decreases |fat| - from
  {
    if n > 0 && from < |fat| {
      SameFree(fat, now, from + 1, if fat[from] == 0 then n - 1 else n);
    }
  }

  lemma {:induction false} EnoughFree(fat: seq<nat>, from: nat, j: nat, k: nat)
    requires from >= 2 && j <= k && |FirstFree(fat, from, k)| == k
    ensures |FirstFree(fat, from, j)| == j
    decreases |fat| - from
  {
    if j > 0 {
      if fat[from] == 0 {
        EnoughFree(fat, from + 1, j - 1, k - 1);
      } else {
        EnoughFree(fat, from + 1, j, k);
      }
    }
  }

  lemma {:induction false} FirstFreePrefix(fat: seq<nat>, from: nat, j: nat, k: nat)
    requires from >= 2 && j <= k && |FirstFree(fat, from, k)| == k
    ensures FirstFree(fat, from, j) == FirstFree(fat, from, k)[..j]
    decreases |fat| - from
  {
    if k > 0 && from < |fat| {
      if fat[from] != 0 {
        FirstFreePrefix(fat, from + 1, j, k);
      } else if j > 0 {
        FirstFreePrefix(fat, from + 1, j - 1, k - 1);
      }
    }
  }

  /** From a number on, exactly the first a free clusters have been taken. */
  ghost predicate FirstTakenFrom(fat: seq<nat>, now: seq<nat>, from: nat, a: nat)
    requires from >= 2
  {
    && |now| == |fat| && |FirstFree(fat, from, a)| == a
    && forall c | from <= c < |fat| :: now[c] == 0 <==> fat[c] == 0 && c !in FirstFree(fat, from, a)
  }

  lemma TakenTail(fat: seq<nat>, now: seq<nat>, from: nat, a: nat)
    requires from >= 2 && a > 0 && FirstTakenFrom(fat, now, from, a)
    ensures from < |fat| == |now| && now[from] != 0
    ensures FirstTakenFrom(fat, now, from + 1, if fat[from] == 0 then a - 1 else a)
  {
    if fat[from] == 0 {
      var s, r := FirstFree(fat, from, a), FirstFree(fat, from + 1, a - 1);
      assert s == [from] + r && s[0] == from;
      forall c | from + 1 <= c < |fat|
        ensures c in s <==> c in r
      {
      }
    }
  }

  lemma Unfold(fat: seq<nat>, from: nat, n: nat)
    requires 2 <= from < |fat|
    ensures FirstFree(fat, from, n) ==
      if n > 0 && fat[from] == 0 then [from] + FirstFree(fat, from + 1, n - 1) else FirstFree(fat, from + 1, n)
  {
  }

  /** Once the first free clusters are taken, the next ones are the first. */
  lemma {:induction false} NextFirst(fat: seq<nat>, now: seq<nat>, from: nat, a: nat, n: nat)
    requires from >= 2 && FirstTakenFrom(fat, now, from, a)
    ensures FirstFree(fat, from, a + n) == FirstFree(fat, from, a) + FirstFree(now, from, n)
    decreases |fat| - from
  {
    hide *;
    if a == 0 {
      NoneTaken(fat, now, from, n);
    } else {
      TakenTail(fat, now, from, a);
      NextFirst(fat, now, from + 1, if fat[from] == 0 then a - 1 else a, n);
      Unfold(fat, from, a + n);
      Unfold(fat, from, a);
      Unfold(now, from, n);
    }
  }

  lemma NoneTaken(fat: seq<nat>, now: seq<nat>, from: nat, n: nat)
    requires from >= 2 && FirstTakenFrom(fat, now, from, 0)
    ensures FirstFree(fat, from, n) == FirstFree(fat, from, 0) + FirstFree(now, from, n)
  {
    SameFree(fat, now, from, n);
    assert FirstFree(fat, from, 0) == [];
  }

  // ---- Growing a chain ----------------------------------------------------------------------

  function Last(s: seq<nat>): nat
    requires s != []
  {
    s[|s| - 1]
  }

  /** The first k of the new clusters have been linked behind the end of a chain; the last of them has no entry yet. */
  ghost predicate Linking(fat: seq<nat>, now: seq<nat>, end: nat, add: seq<nat>, k: nat) {
    && |now| == |fat| && k <= |add| && InTable(fat, end) && (forall i | 0 <= i < |add| :: Free(fat, add[i]))
    && (forall c | 0 <= c < |fat| && c != end && c !in add[..k] :: now[c] == fat[c])
    && (k > 0 ==> now[end] == add[0] && now[add[k - 1]] == 0)
    && (k == 0 ==> now[end] == fat[end])
    && (forall i {:trigger now[add[i]]} | 0 <= i < k - 1 :: now[add[i]] == add[i + 1])
  }

  ghost predicate Grown(fat: seq<nat>, after: seq<nat>, s: seq<nat>, add: seq<nat>) {
    && |after| == |fat| && IsChain(after, s + add)
    && (forall c | 0 <= c < |fat| && (s == [] || c != Last(s)) && c !in add :: after[c] == fat[c])
  }

  lemma NoneLinked(fat: seq<nat>, end: nat, add: seq<nat>)
    requires InTable(fat, end) && forall i | 0 <= i < |add| :: Free(fat, add[i])
    ensures Linking(fat, fat, end, add, 0)
  {
  }

  /** Clusters that come later than those linked so far are free exactly when they were. */
  lemma StillFree(fat: seq<nat>, now: seq<nat>, end: nat, add: seq<nat>, k: nat, c: nat)
    requires Linking(fat, now, end, add, k) && fat[end] != 0 && c < |fat|
    requires forall j | 0 <= j < k :: add[j] < c
    ensures |now| == |fat| && (now[c] == 0 <==> fat[c] == 0)
  {
    assert k > 0 ==> Free(fat, add[0]);
  }

  lemma LinkNext(fat: seq<nat>, now: seq<nat>, end: nat, add: seq<nat>, k: nat)
    requires Linking(fat, now, end, add, k) && k < |add| && fat[end] != 0
    requires NoRepeats(add)
    ensures
      var current := if k == 0 then end else add[k - 1];
      InTable(fat, current) && Linking(fat, now[current := add[k]], end, add, k + 1)
  {
    assert add[..k + 1] == add[..k] + [add[k]];
    assert Free(fat, add[k]) && add[k] !in add[..k];
    assert k > 0 ==> Free(fat, add[k - 1]) && add[k - 1] in add[..k];
  }

  /** Behind which cluster the next one is linked. */
  function Current(end: nat, add: seq<nat>, k: nat): nat
    requires k <= |add|
  {
    if k == 0 then end else add[k - 1]
  }

  /** The search for free clusters: k have been linked, and the others lie from the candidate on. */
  ghost predicate Progress(fat: seq<nat>, now: seq<nat>, end: nat, add: seq<nat>, k: nat, candidate: nat, n: nat) {
    && k <= n == |add| && 2 <= candidate && InTable(fat, end) && fat[end] != 0 && NoRepeats(add)
    && add[k..] == FirstFree(fat, candidate, n - k)
    && (forall j | 0 <= j < k :: add[j] < candidate)
    && Linking(fat, now, end, add, k)
  }

  lemma StartLinking(fat: seq<nat>, end: nat, n: nat)
    requires InTable(fat, end) && fat[end] != 0 && |FirstFree(fat, 2, n)| == n
    ensures Progress(fat, fat, end, FirstFree(fat, 2, n), 0, 2, n)
    ensures Current(end, FirstFree(fat, 2, n), 0) == end
  {
    FirstFreeMembers(fat, 2, n);
    NoneLinked(fat, end, FirstFree(fat, 2, n));
  }

  /** One candidate: linked if it is free. */
  lemma Step(fat: seq<nat>, now: seq<nat>, end: nat, add: seq<nat>, k: nat, candidate: nat, n: nat)
    requires Progress(fat, now, end, add, k, candidate, n) && k < n
    ensures |now| == |fat| && candidate < |fat| && Current(end, add, k) < |fat|
    ensures now[candidate] == 0 ==>
      && Current(end, add, k + 1) == candidate
      && Progress(fat, now[Current(end, add, k) := candidate], end, add, k + 1, candidate + 1, n)
    ensures now[candidate] != 0 ==> Progress(fat, now, end, add, k, candidate + 1, n)
  {
    NextFree(fat, candidate, add, k);
    StillFree(fat, now, end, add, k, candidate);
    hide NoRepeats, FirstFree;
    if now[candidate] == 0 {
      LinkNext(fat, now, end, add, k);
      hide Linking;
    }
  }

  lemma AllLinked(fat: seq<nat>, now: seq<nat>, end: nat, add: seq<nat>, candidate: nat, n: nat)
    requires Progress(fat, now, end, add, n, candidate, n)
    ensures |add| == n && NoRepeats(add) && Linking(fat, now, end, add, |add|)
  {
  }

  lemma LinkEnd(fat: seq<nat>, now: seq<nat>, s: seq<nat>, add: seq<nat>)
    requires TableOk(fat) && IsChain(fat, s) && Linking(fat, now, Last(s), add, |add|)
    requires NoRepeats(add)
    ensures
      var current := Current(Last(s), add, |add|);
      InTable(fat, current) && current == Last(s + add) && Grown(fat, now[current := END_OF_CHAIN], s, add)
  {
    var current := Current(Last(s), add, |add|);
    var after := now[current := END_OF_CHAIN];
    assert add[..|add|] == add;
    Acyclic(fat, s);
    var t := s + add;
    forall i | 0 <= i < |s|
      ensures s[i] !in add
    {
      NextInChain(fat, s, i);
    }
    forall i | 0 <= i < |t| - 1
      ensures after[t[i]] == t[i + 1]
    {
      if i < |s| - 1 {
        assert s[i] != Last(s) && fat[s[i]] == s[i + 1];
      } else if i >= |s| {
        assert now[add[i - |s|]] == add[i - |s| + 1];
      }
    }
  }

  lemma GrownNothing(fat: seq<nat>, s: seq<nat>)
    requires IsChain(fat, s)
    ensures Grown(fat, fat, s, [])
  {
    assert s + [] == s;
  }

  lemma GrownTwice(fat: seq<nat>, mid: seq<nat>, after: seq<nat>, s: seq<nat>, a: seq<nat>, b: seq<nat>)
    requires Grown(fat, mid, s, a) && s + a != [] && Grown(mid, after, s + a, b)
    ensures Grown(fat, after, s, a + b)
  {
    assert s + a + b == s + (a + b);
    assert Last(s + a) == if a == [] then Last(s) else Last(a);
  }

  /** Growing twice takes the first free clusters, just as growing once by as many. */
  lemma GrowMore(fat: seq<nat>, now: seq<nat>, s: seq<nat>, a: nat, n: nat)
    requires TableOk(fat) && (s == [] || IsChain(fat, s)) && |FirstFree(fat, 2, a)| == a
    requires Grown(fat, now, s, FirstFree(fat, 2, a))
    ensures FirstFree(fat, 2, a + n) == FirstFree(fat, 2, a) + FirstFree(now, 2, n)
  {
    var add := FirstFree(fat, 2, a);
    forall c | 2 <= c < |fat|
      ensures now[c] == 0 <==> fat[c] == 0 && c !in add
    {
      hide FirstFree;
      GrownFree(fat, now, s, add, c);
    }
    NextFirst(fat, now, 2, a, n);
  }

  lemma GrownFree(fat: seq<nat>, now: seq<nat>, s: seq<nat>, add: seq<nat>, c: nat)
    requires TableOk(fat) && (s == [] || IsChain(fat, s)) && Grown(fat, now, s, add) && c < |fat|
    ensures now[c] == 0 <==> fat[c] == 0 && c !in add
  {
    var t := s + add;
    if s != [] && c == Last(s) {
      NextInChain(fat, s, |s| - 1);
      NextInChain(now, t, |s| - 1);
    }
    if c in add {
      var i :| 0 <= i < |add| && add[i] == c;
      NextInChain(now, t, |s| + i);
    }
  }

  // ---- The table as a whole ------------------------------------------------------------------

  /** Every chain is finite and without cycles, and no two share a cluster. */
  ghost predicate ChainsOk(fat: seq<nat>, chains: seq<seq<nat>>) {
    && (forall k | 0 <= k < |chains| :: IsChain(fat, chains[k]))
    && (forall k, l | 0 <= k < l < |chains| :: Disjoint(chains[k], chains[l]))
  }

  /** A chain that does not meet a grown one is still the same chain, and does not meet the new clusters. */
  lemma OtherChain(fat: seq<nat>, after: seq<nat>, s: seq<nat>, add: seq<nat>, t: seq<nat>)
    requires TableOk(fat) && Grown(fat, after, s, add) && IsChain(fat, t) && Disjoint(s, t)
    requires forall i | 0 <= i < |add| :: Free(fat, add[i])
    ensures IsChain(after, t) && Disjoint(s + add, t) && Disjoint(t, s + add)
  {
    forall i | 0 <= i < |t|
      ensures t[i] !in add && (s == [] || t[i] != Last(s))
    {
      NextInChain(fat, t, i);
    }
  }

  /** Growing one chain by free clusters, or starting one with them, keeps the whole table in order. */
  lemma ExtendKeepsChains(fat: seq<nat>, after: seq<nat>, chains: seq<seq<nat>>, k: nat, add: seq<nat>)
    requires TableOk(fat) && ChainsOk(fat, chains) && k < |chains| && Grown(fat, after, chains[k], add)
    requires forall i | 0 <= i < |add| :: Free(fat, add[i])
    ensures ChainsOk(after, chains[k := chains[k] + add])
  {
    forall l | 0 <= l < |chains| && l != k
      ensures IsChain(after, chains[l])
      ensures Disjoint(chains[k] + add, chains[l]) && Disjoint(chains[l], chains[k] + add)
    {
      assert Disjoint(chains[k], chains[l]) by {
        assert if k < l then Disjoint(chains[k], chains[l]) else Disjoint(chains[l], chains[k]);
      }
      OtherChain(fat, after, chains[k], add, chains[l]);
    }
  }

  lemma AllocateKeepsChains(fat: seq<nat>, after: seq<nat>, chains: seq<seq<nat>>, add: seq<nat>)
    requires TableOk(fat) && ChainsOk(fat, chains) && Grown(fat, after, [], add)
    requires forall i | 0 <= i < |add| :: Free(fat, add[i])
    ensures ChainsOk(after, chains + [add])
  {
    assert [] + add == add;
    forall l | 0 <= l < |chains|
      ensures IsChain(after, chains[l]) && Disjoint(chains[l], add)
    {
      OtherChain(fat, after, [], add, chains[l]);
    }
  }

  // ---- The operations ----------------------------------------------------------------------

  class Table {
    const fat: array<nat>

    constructor (fat: array<nat>)
      ensures this.fat == fat
    {
      this.fat := fat;
    }

    method NextCluster(cluster: nat) returns (next: nat)
      requires cluster < fat.Length
      ensures next == if IsEnd(fat[cluster]) then END_OF_CHAIN else fat[cluster]
      ensures next == if fat[cluster] >= 0x0fff_fff8 then 0x0fff_ffff else fat[cluster]
    {
      next := fat[cluster];
      if IsEnd(next) {
        next := END_OF_CHAIN;
      }
    }

    method SetEntry(c: nat, entry: nat)
      requires c < fat.Length
      modifies fat
      ensures fat[..] == old(fat[..])[c := entry]
    {
      fat[c] := entry;
    }

    /** The first loop of ExtendCluster. */
    method FindEnd(cluster: nat, ghost s: seq<nat>, ghost k: nat) returns (end: nat)
      requires TableOk(fat[..]) && IsChain(fat[..], s) && k < |s| && s[k] == cluster
      ensures end == Last(s) && InTable(fat[..], end) && fat[end] != 0
    {
      end := cluster;
      ghost var i := k;
      while !IsEnd(fat[end])
        invariant i < |s| && end == s[i]
        decreases |s| - i
      {
        NextInChain(fat[..], s, i);
        end := fat[end];
        i := i + 1;
      }
      NextInChain(fat[..], s, i);
    }

    /** The second loop of ExtendCluster: free clusters are linked behind the end in the order they are found. */
    method LinkFree(end: nat, n: nat, ghost add: seq<nat>) returns (current: nat)
      requires |add| == n && Progress(fat[..], fat[..], end, add, 0, 2, n) && Current(end, add, 0) == end
      modifies fat
      ensures NoRepeats(add) && current == Current(end, add, n)
      ensures Linking(old(fat[..]), fat[..], end, add, n)
    {
      hide *;
      ghost var before := fat[..];
      var taken := 0;
      current := end;
      var candidate: nat := 2;
      while taken < n
        invariant taken <= n && Progress(before, fat[..], end, add, taken, candidate, n)
        invariant current == Current(end, add, taken)
        decreases fat.Length - candidate
      {
        Step(before, fat[..], end, add, taken, candidate, n);
        if fat[candidate] == 0 {
          SetEntry(current, candidate);
          current := candidate;
          taken := taken + 1;
        }
        candidate := candidate + 1;
      }
      AllLinked(before, fat[..], end, add, candidate, n);
    }

    /** Appends n clusters to the chain of a cluster; returns the last one. */
    method ExtendCluster(cluster: nat, n: nat, ghost s: seq<nat>, ghost k: nat) returns (last: nat)
      requires TableOk(fat[..]) && IsChain(fat[..], s) && k < |s| && s[k] == cluster
      requires |FirstFree(fat[..], 2, n)| == n
      modifies fat
      ensures Grown(old(fat[..]), fat[..], s, FirstFree(old(fat[..]), 2, n))
      ensures last == Last(s + FirstFree(old(fat[..]), 2, n))
    {
      hide *;
      ghost var before := fat[..];
      ghost var add := FirstFree(before, 2, n);
      var end := FindEnd(cluster, s, k);
      StartLinking(before, end, n);
      last := LinkFree(end, n, add);
      LinkEnd(before, fat[..], s, add);
      SetEntry(last, END_OF_CHAIN);
    }

    /** A new chain of n clusters, or of one when n is 0; returns the first one. */
    method AllocateClusterChain(n: nat) returns (first: nat)
      requires TableOk(fat[..]) && |FirstFree(fat[..], 2, ChainLength(n))| == ChainLength(n)
      modifies fat
      ensures Grown(old(fat[..]), fat[..], [], FirstFree(old(fat[..]), 2, ChainLength(n)))
      ensures first == FirstFree(old(fat[..]), 2, ChainLength(n))[0]
      ensures |FirstFree(old(fat[..]), 2, ChainLength(n))| == if n == 0 then 1 else n
    {
      ghost var before := fat[..];
      first := 2;
      while fat[first] != 0
        invariant 2 <= first < fat.Length
        invariant FirstFree(before, 2, ChainLength(n)) == FirstFree(before, first, ChainLength(n))
        decreases fat.Length - first
      {
        first := first + 1;
      }
      FirstTaken(before, first, ChainLength(n));
      SetEntry(first, END_OF_CHAIN);
      if n > 1 {
        hide FirstFree, Grown;
        var last := ExtendCluster(first, n - 1, [first], 0);
        GrownFromOne(before, fat[..], first, FirstFree(before[first := END_OF_CHAIN], 2, n - 1));
      }
    }
  }

  function ChainLength(n: nat): nat {
    if n <= 1 then 1 else n
  }

  lemma {:induction false} SkipUsed(fat: seq<nat>, from: nat, to: nat, n: nat)
    requires 2 <= from <= to <= |fat| && forall c | from <= c < to :: fat[c] != 0
    ensures FirstFree(fat, from, n) == FirstFree(fat, to, n)
    decreases |fat| - from
  {
    if from < to {
      SkipUsed(fat, from + 1, to, n);
    }
  }

  /** Once the first free cluster is a chain of its own, the others are the next free ones. */
  lemma FirstTaken(fat: seq<nat>, first: nat, n: nat)
    requires TableOk(fat) && Free(fat, first) && n > 0
    requires FirstFree(fat, 2, n) == FirstFree(fat, first, n)
    ensures var now := fat[first := END_OF_CHAIN];
      && FirstFree(fat, 2, n) == [first] + FirstFree(now, 2, n - 1)
      && IsChain(now, [first]) && Grown(fat, now, [], [first])
  {
    var now := fat[first := END_OF_CHAIN];
    forall c | 2 <= c < first
      ensures fat[c] != 0
    {
      if fat[c] == 0 {
        HeadLowest(fat, 2, n, c);
      }
    }
    SkipUsed(now, 2, first + 1, n - 1);
    SameFree(fat, now, first + 1, n - 1);
    assert [] + [first] == [first];
  }

  lemma GrownFromOne(fat: seq<nat>, after: seq<nat>, first: nat, rest: seq<nat>)
    requires InTable(fat, first) && Grown(fat[first := END_OF_CHAIN], after, [first], rest)
    ensures Grown(fat, after, [], [first] + rest)
  {
    assert [] + ([first] + rest) == [first] + rest;
  }
}
