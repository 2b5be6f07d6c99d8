/** File names of directory entries: eleven bytes, upper case, padded with spaces (Kernel/fat.cpp). */
module FatNames {
  import opened Messages

  const SPACE: byte := 0x20
  const DOT: byte := 0x2e
  const SLASH: byte := 0x2f

  /** toupper in the C locale. */
  function Upper(c: byte): byte {
    if 97 <= c <= 122 then c - 32 else c
  }

  function UpperAll(s: seq<byte>): (r: seq<byte>)
    ensures |r| == |s|
    ensures forall i | 0 <= i < |s| :: r[i] == Upper(s[i])
  {
    seq(|s|, i requires 0 <= i < |s| => Upper(s[i]))
  }

  function Spaces(n: nat): (r: seq<byte>)
    ensures |r| == n
    ensures forall i | 0 <= i < n :: r[i] == SPACE
  {
    seq(n, _ => SPACE)
  }

  /** The first n bytes of a string in upper case, filled up with spaces. */
  function Field(s: seq<byte>, n: nat): (r: seq<byte>)
    ensures |r| == n
    ensures forall i | 0 <= i < n :: r[i] == if i < |s| then Upper(s[i]) else SPACE
  {
    if |s| < n then UpperAll(s) + Spaces(n - |s|) else UpperAll(s[..n])
  }

  /** Where the last dot of a name is; its length if there is none. */
  function LastDot(name: seq<byte>): (r: nat)
    ensures r <= |name|
    ensures r < |name| ==> name[r] == DOT
    ensures forall i | r < i < |name| :: name[i] != DOT
    ensures r == |name| ==> DOT !in name
  {
    if name == [] then 0
    else
      var r := LastDot(name[1..]);
      if r < |name| - 1 then r + 1 else if name[0] == DOT then 0 else |name|
  }

  /** The name a new entry gets: what is before the last dot, cut after eight bytes, and three bytes of what is behind. */
  function EntryName(name: seq<byte>): (r: seq<byte>)
    ensures |r| == 11
  {
    var dot := LastDot(name);
    Field(name[..dot], 8) + if dot < |name| then Field(name[dot + 1..], 3) else Spaces(3)
  }

  /** The name a search compares with: each dot starts the extension over, and other bytes go on from where they are. */
  function SearchName(name: seq<byte>, at: nat, so: seq<byte>): (r: seq<byte>)
    requires |so| == 11
    ensures |r| == 11
    decreases |name|
  {
    if name == [] || at >= 11 then so
    else if name[0] == DOT then SearchName(name[1..], 8, so)
    else SearchName(name[1..], at + 1, so[at := Upper(name[0])])
  }

  predicate NameIs(entryName: seq<byte>, name: seq<byte>) {
    entryName == SearchName(name, 0, Spaces(11))
  }

  /** fat::NameIsEqual. */
  method NameIsEqual(entryName: seq<byte>, name: seq<byte>) returns (r: bool)
    requires |entryName| == 11
    ensures r <==> NameIs(entryName, name)
  {
    var name83 := Spaces(11);
    var i, i83 := 0, 0;
    while i < |name| && i83 < 11
      invariant 0 <= i <= |name| && 0 <= i83 && |name83| == 11
      invariant SearchName(name[i..], i83, name83) == SearchName(name, 0, Spaces(11))
    {
      assert name[i..][0] == name[i] && name[i..][1..] == name[i + 1..];
      if name[i] == DOT {
        i83 := 7;
      } else {
        name83 := name83[i83 := Upper(name[i])];
      }
      i, i83 := i + 1, i83 + 1;
    }
    assert i == |name| ==> name[i..] == [];
    r := entryName == name83;
  }

  /** fat::SetFileName. */
  method SetFileName(name: seq<byte>) returns (entryName: seq<byte>)
    ensures entryName == EntryName(name)
  {
    var dot := LastDot(name);
    entryName := Spaces(11);
    var i := 0;
    while i < 8 && i < dot
      invariant 0 <= i <= 8 && i <= dot && |entryName| == 11
      invariant forall k | 0 <= k < 11 :: entryName[k] == if k < i then Upper(name[k]) else SPACE
    {
      entryName := entryName[i := Upper(name[i])];
      i := i + 1;
    }
    if dot < |name| {
      ghost var base := i;
      i := 0;
      while i < 3 && dot + i + 1 < |name|
        invariant 0 <= i <= 3 && dot + i + 1 <= |name| && |entryName| == 11
        invariant forall k | 0 <= k < 8 :: entryName[k] == if k < base then Upper(name[k]) else SPACE
        invariant forall k | 8 <= k < 11 :: entryName[k] == if k < 8 + i then Upper(name[dot + 1 + k - 8]) else SPACE
      {
        entryName := entryName[8 + i := Upper(name[dot + i + 1])];
        i := i + 1;
      }
    }
  }

  // ---- Upper and lower case ---------------------------------------------------------------

  const SMALL: string := "abcdefghijklmnopqrstuvwxyz"
  const CAPITAL: string := "ABCDEFGHIJKLMNOPQRSTUVWXYZ"

  lemma Letters(i: nat)
    requires i < 26
    ensures SMALL[i] == (97 + i) as char && CAPITAL[i] == (65 + i) as char
  {
    assert SMALL[0] == 'a' && SMALL[1] == 'b' && SMALL[2] == 'c' && SMALL[3] == 'd' && SMALL[4] == 'e' && SMALL[5] == 'f';
    assert CAPITAL[0] == 'A' && CAPITAL[1] == 'B' && CAPITAL[2] == 'C' && CAPITAL[3] == 'D' && CAPITAL[4] == 'E';
  }

  /** Each small letter has its capital, and every other byte is left as it is. */
  lemma UpperIs(c: byte)
    ensures forall i | 0 <= i < 26 && c as char == SMALL[i] :: Upper(c) as char == CAPITAL[i]
    ensures (forall i | 0 <= i < 26 :: c as char != SMALL[i]) ==> Upper(c) == c
    ensures forall i | 0 <= i < 26 :: Upper(c) as char != SMALL[i]
  {
    forall i: nat | i < 26
      ensures SMALL[i] == (97 + i) as char && CAPITAL[i] == (65 + i) as char
    {
      Letters(i);
    }
    if 97 <= c <= 122 {
      assert c as char == SMALL[c as int - 97];
    }
  }

  /** The same letter, large or small, or the same byte. */
  ghost predicate SameLetter(a: byte, b: byte) {
    a == b || exists i :: 0 <= i < 26 && {a as char, b as char} == {SMALL[i], CAPITAL[i]}
  }

  ghost predicate SameLetters(a: seq<byte>, b: seq<byte>) {
    |a| == |b| && forall i | 0 <= i < |a| :: SameLetter(a[i], b[i])
  }

  lemma SameUpper(a: byte, b: byte)
    requires SameLetter(a, b)
    ensures Upper(a) == Upper(b) && (a == DOT <==> b == DOT) && (a == SLASH <==> b == SLASH)
  {
    if a != b {
      var i :| 0 <= i < 26 && {a as char, b as char} == {SMALL[i], CAPITAL[i]};
      Letters(i);
      assert a as char in {SMALL[i], CAPITAL[i]} && b as char in {SMALL[i], CAPITAL[i]};
    }
  }

  lemma {:induction false} SearchAnyCase(a: seq<byte>, b: seq<byte>, at: nat, so: seq<byte>)
    requires |so| == 11 && SameLetters(a, b)
    ensures SearchName(a, at, so) == SearchName(b, at, so)
    decreases |a|
  {
    if a != [] && at < 11 {
      SameUpper(a[0], b[0]);
      assert SameLetters(a[1..], b[1..]);
      SearchAnyCase(a[1..], b[1..], if a[0] == DOT then 8 else at + 1, if a[0] == DOT then so else so[at := Upper(a[0])]);
    }
  }

  /** A name matches the same entries, and gets the same entry, in any case. */
  lemma NameAnyCase(a: seq<byte>, b: seq<byte>)
    requires SameLetters(a, b)
    ensures forall entry :: NameIs(entry, a) <==> NameIs(entry, b)
    ensures EntryName(a) == EntryName(b)
  {
    SearchAnyCase(a, b, 0, Spaces(11));
    forall i | 0 <= i < |a|
      ensures Upper(a[i]) == Upper(b[i]) && (a[i] == DOT <==> b[i] == DOT)
    {
      SameUpper(a[i], b[i]);
    }
    var dot := LastDot(a);
    assert dot == LastDot(b);
    assert Field(a[..dot], 8) == Field(b[..dot], 8);
    if dot < |a| {
      assert Field(a[dot + 1..], 3) == Field(b[dot + 1..], 3);
    }
  }

  /** Entries hold no small letters. */
  lemma EntryIsCapital(name: seq<byte>, k: nat)
    requires k < 11
    ensures forall i | 0 <= i < 26 :: EntryName(name)[k] as char != SMALL[i]
  {
    var dot := LastDot(name);
    UpperIs(SPACE);
    if k < 8 {
      if k < dot {
        UpperIs(name[k]);
      }
    } else if dot + 1 + (k - 8) < |name| {
      UpperIs(name[dot + 1 + (k - 8)]);
    }
    Letters(0);
    forall i | 0 <= i < 26
      ensures SPACE as char != SMALL[i]
    {
      Letters(i);
    }
  }

  // ---- Valid names -----------------------------------------------------------------------

  /** One to eight bytes, or these, a dot and one to three more; no spaces, slashes, zeros or further dots, and not the
      mark of deleted entries at the beginning. */
  predicate Valid83(name: seq<byte>) {
    var dot := LastDot(name);
    && 1 <= dot <= 8 && DOT !in name[..dot] && (dot < |name| ==> 1 <= |name| - dot - 1 <= 3)
    && name[0] != 0xe5
    && forall i | 0 <= i < |name| :: name[i] != SPACE && name[i] != SLASH && name[i] != 0
  }

  /** Without dots, the search name is filled from where it is. */
  lemma {:induction false} SearchPlain(name: seq<byte>, at: nat, so: seq<byte>)
    requires |so| == 11 && DOT !in name
    ensures forall k | 0 <= k < 11 :: SearchName(name, at, so)[k] == if at <= k < at + |name| then Upper(name[k - at]) else so[k]
    decreases |name|
  {
    if name != [] && at < 11 {
      SearchPlain(name[1..], at + 1, so[at := Upper(name[0])]);
    }
  }

  lemma {:induction false} SearchConcat(a: seq<byte>, b: seq<byte>, at: nat, so: seq<byte>)
    requires |so| == 11 && DOT !in a && at + |a| <= 10
    ensures SearchName(a + b, at, so) == SearchName(b, at + |a|, SearchName(a, at, so))
    decreases |a|
  {
    if a == [] {
      assert a + b == b;
    } else {
      assert (a + b)[0] == a[0] && (a + b)[1..] == a[1..] + b;
      SearchConcat(a[1..], b, at + 1, so[at := Upper(a[0])]);
    }
  }

  /** A valid name is found under the name it is entered with. */
  lemma ValidNameIsFound(name: seq<byte>)
    requires Valid83(name)
    ensures NameIs(EntryName(name), name)
    ensures EntryName(name)[0] != 0 && EntryName(name)[0] != 0xe5
  {
    var dot := LastDot(name);
    if dot < |name| {
      assert name == name[..dot] + ([DOT] + name[dot + 1..]);
      SearchWithExtension(name[..dot], name[dot + 1..]);
    } else {
      assert name == name[..dot];
      SearchPlain(name, 0, Spaces(11));
      hide SearchName;
      assert Field(name, 8) + Spaces(3) == SearchName(name, 0, Spaces(11));
    }
  }

  lemma SearchWithExtension(base: seq<byte>, ext: seq<byte>)
    requires DOT !in base && DOT !in ext && |base| <= 8
    ensures SearchName(base + ([DOT] + ext), 0, Spaces(11)) == Field(base, 8) + Field(ext, 3)
  {
    SearchPlain(base, 0, Spaces(11));
    var so := SearchName(base, 0, Spaces(11));
    SearchConcat(base, [DOT] + ext, 0, Spaces(11));
    assert SearchName([DOT] + ext, |base|, so) == SearchName(ext, 8, so) by {
      assert ([DOT] + ext)[1..] == ext;
    }
    SearchPlain(ext, 8, so);
    hide SearchName;
    assert SearchName(ext, 8, so) == Field(base, 8) + Field(ext, 3);
  }

  // ---- Which names are found ---------------------------------------------------------------

  /** A name without dots is found under its entered name if and only if it has nothing but spaces in the place of an
      extension: its bytes nine to eleven. */
  lemma PlainNameIsFound(name: seq<byte>)
    requires DOT !in name
    ensures NameIs(EntryName(name), name) <==> forall k | 8 <= k < |name| && k < 11 :: name[k] == SPACE
  {
    SearchPlain(name, 0, Spaces(11));
    var so := SearchName(name, 0, Spaces(11));
    hide SearchName;
    if forall k | 8 <= k < |name| && k < 11 :: name[k] == SPACE {
      assert so == EntryName(name);
    } else {
      var k :| 8 <= k < |name| && k < 11 && name[k] != SPACE;
      assert so[k] == Upper(name[k]) != SPACE == EntryName(name)[k];
    }
  }

  /** The parts behind the first dot of a name, each with the dot before it. */
  function Dotted(parts: seq<seq<byte>>): seq<byte> {
    if parts == [] then [] else [DOT] + parts[0] + Dotted(parts[1..])
  }

  /** What a search makes of the extension: each part is written over the ones before; one of three bytes or more ends it. */
  function Overlaid(parts: seq<seq<byte>>, ext: seq<byte>): (r: seq<byte>)
    requires |ext| == 3
    ensures |r| == 3
  {
    if parts == [] then ext
    else if |parts[0]| >= 3 then UpperAll(parts[0][..3])
    else Overlaid(parts[1..], UpperAll(parts[0]) + ext[|parts[0]|..])
  }

  /** What the search begins with there: the part before the first dot, as far as it is longer than eight bytes. */
  function Beyond(base: seq<byte>): seq<byte> {
    if |base| <= 8 then Spaces(3) else Field(base[8..], 3)
  }

  ghost predicate Parts(base: seq<byte>, parts: seq<seq<byte>>) {
    DOT !in base && parts != [] && forall i | 0 <= i < |parts| :: DOT !in parts[i]
  }

  /** A name with dots is found under its entered name if and only if what the search makes of the extension is the last part
      and, with several dots, the first of them is not among the first eight bytes. */
  lemma DottedNameIsFound(base: seq<byte>, parts: seq<seq<byte>>)
    requires Parts(base, parts)
    ensures
      var name := base + Dotted(parts);
      NameIs(EntryName(name), name) <==>
        && (|parts| == 1 || |base| >= 8)
        && (if |base| >= 11 then Beyond(base) else Overlaid(parts, Beyond(base))) == Field(parts[|parts| - 1], 3)
  {
    var name := base + Dotted(parts);
    hide SearchName, EntryName, Overlaid, Beyond, Dotted, Field, UpperAll, LastDot;
    SearchDotted(base, parts);
    EntryDotted(base, parts);
    Halves(EntryName(name), SearchName(name, 0, Spaces(11)));
  }

  lemma Halves(a: seq<byte>, b: seq<byte>)
    requires |a| == |b| == 11
    ensures a == b <==> a[..8] == b[..8] && a[8..] == b[8..]
    ensures forall i | 0 <= i < 8 && a[i] != b[i] :: a[..8] != b[..8]
  {
    assert a == a[..8] + a[8..] && b == b[..8] + b[8..];
    forall i | 0 <= i < 8 && a[i] != b[i]
      ensures a[..8] != b[..8]
    {
      assert a[..8][i] != b[..8][i];
    }
  }

  /** Every name has such parts; there are none behind the first if it has no dot. */
  lemma {:induction false} HasParts(name: seq<byte>) returns (base: seq<byte>, parts: seq<seq<byte>>)
    ensures name == base + Dotted(parts) && DOT !in base && forall i | 0 <= i < |parts| :: DOT !in parts[i]
    ensures DOT in name ==> Parts(base, parts)
  {
    if name == [] {
      return [], [];
    }
    base, parts := HasParts(name[1..]);
    var c := [name[0]];
    assert name == c + name[1..];
    Associate(c, base, Dotted(parts));
    if name[0] == DOT {
      assert ([base] + parts)[1..] == parts;
      base, parts := [], [base] + parts;
    } else {
      base := c + base;
    }
  }

  /** With one dot and no spaces in the way: at most eight bytes before the dot, or one or two more that the extension
      covers, or the extension said in advance. */
  lemma OneDotIsFound(base: seq<byte>, ext: seq<byte>)
    requires DOT !in base && DOT !in ext && SPACE !in base
    ensures
      var name := base + [DOT] + ext;
      NameIs(EntryName(name), name) <==>
        if |base| <= 10 then |ext| >= |base| - 8 else UpperAll(base[8..11]) == Field(ext, 3)
  {
    var name := base + [DOT] + ext;
    assert Dotted([ext]) == [DOT] + ext by {
      assert [ext][1..] == [];
    }
    assert name == base + Dotted([ext]);
    DottedNameIsFound(base, [ext]);
    hide SearchName, EntryName;
    assert [ext][1..] == [];
    var left := Overlaid([ext], Beyond(base));
    if |base| <= 10 && |ext| < |base| - 8 {
      assert left[|ext|] == Beyond(base)[|ext|] == Upper(base[8 + |ext|]) != SPACE;
    } else if |base| <= 10 {
      forall k | 0 <= k < 3
        ensures left[k] == Field(ext, 3)[k]
      {
        assert |ext| < 3 ==> left[k] == (UpperAll(ext) + Beyond(base)[|ext|..])[k];
      }
      assert left == Field(ext, 3);
    } else {
      assert Beyond(base) == UpperAll(base[8..11]);
    }
  }

  /** Several dots, the first one among the first eight bytes: never found again. */
  lemma EarlyDotIsLost(base: seq<byte>, parts: seq<seq<byte>>)
    requires Parts(base, parts) && |parts| > 1 && |base| < 8
    ensures !NameIs(EntryName(base + Dotted(parts)), base + Dotted(parts))
  {
    DottedNameIsFound(base, parts);
  }

  lemma {:induction false} SearchStops(a: seq<byte>, b: seq<byte>, at: nat, so: seq<byte>)
    requires |so| == 11 && DOT !in a && at + |a| >= 11
    ensures SearchName(a + b, at, so) == SearchName(a, at, so)
    decreases |a|
  {
    if a != [] && at < 11 {
      assert (a + b)[0] == a[0] && (a + b)[1..] == a[1..] + b;
      SearchStops(a[1..], b, at + 1, so[at := Upper(a[0])]);
    }
  }

  lemma {:induction false} SearchParts(parts: seq<seq<byte>>, at: nat, so: seq<byte>)
    requires |so| == 11 && at <= 10 && forall i | 0 <= i < |parts| :: DOT !in parts[i]
    ensures SearchName(Dotted(parts), at, so) == so[..8] + Overlaid(parts, so[8..])
    decreases |parts|
  {
    if parts == [] {
      assert so == so[..8] + so[8..];
    } else {
      var first, rest := parts[0], Dotted(parts[1..]);
      assert Dotted(parts)[0] == DOT && Dotted(parts)[1..] == first + rest;
      assert SearchName(Dotted(parts), at, so) == SearchName(first + rest, 8, so);
      SearchPlain(first, 8, so);
      var next := SearchName(first, 8, so);
      if |first| >= 3 {
        SearchStops(first, rest, 8, so);
        hide SearchName;
        assert next == so[..8] + UpperAll(first[..3]);
      } else {
        SearchConcat(first, rest, 8, so);
        SearchParts(parts[1..], 8 + |first|, next);
        hide SearchName;
        assert next[..8] == so[..8] && next[8..] == UpperAll(first) + so[8..][|first|..];
      }
    }
  }

  lemma SearchDotted(base: seq<byte>, parts: seq<seq<byte>>)
    requires Parts(base, parts)
    ensures
      var so := SearchName(base + Dotted(parts), 0, Spaces(11));
      && so[..8] == Field(base, 8) && (|base| < 8 ==> so[|base|] == SPACE)
      && so[8..] == if |base| >= 11 then Beyond(base) else Overlaid(parts, Beyond(base))
  {
    SearchPlain(base, 0, Spaces(11));
    var so := SearchName(base, 0, Spaces(11));
    assert so[..8] == Field(base, 8) && so[8..] == Beyond(base) by {
      hide SearchName;
    }
    if |base| >= 11 {
      SearchStops(base, Dotted(parts), 0, Spaces(11));
    } else {
      SearchConcat(base, Dotted(parts), 0, Spaces(11));
      SearchParts(parts, |base|, so);
    }
  }

  lemma EntryDotted(base: seq<byte>, parts: seq<seq<byte>>)
    requires Parts(base, parts)
    ensures
      var entry := EntryName(base + Dotted(parts));
      && entry[8..] == Field(parts[|parts| - 1], 3)
      && (|parts| == 1 || |base| >= 8 ==> entry[..8] == Field(base, 8))
      && (|parts| > 1 && |base| < 8 ==> entry[|base|] == DOT)
  {
    assert DOT !in parts[|parts| - 1];
    hide *;
    var front := base + Dotted(parts[..|parts| - 1]);
    NameParts(base, parts);
    EntryFront(front, parts[|parts| - 1]);
    FrontFacts(base, parts[..|parts| - 1]);
    FieldStart(front, base, |parts| > 1);
  }

  lemma NameParts(base: seq<byte>, parts: seq<seq<byte>>)
    requires parts != []
    ensures base + Dotted(parts) == base + Dotted(parts[..|parts| - 1]) + [DOT] + parts[|parts| - 1]
  {
    hide *;
    LastPart(parts);
    Associate(base, Dotted(parts[..|parts| - 1]), [DOT]);
    Associate(base, Dotted(parts[..|parts| - 1]) + [DOT], parts[|parts| - 1]);
  }

  lemma EntryFront(front: seq<byte>, last: seq<byte>)
    requires DOT !in last
    ensures
      var entry := EntryName(front + [DOT] + last);
      && entry[..8] == Field(front, 8) && entry[8..] == Field(last, 3)
      && forall i | 0 <= i < 8 :: entry[i] == Field(front, 8)[i]
  {
    hide *;
    Start(EntryName(front + [DOT] + last));
    LastDotIs(front, last);
    EntryParts(front + [DOT] + last);
    Around(front, last);
  }

  lemma Start(entry: seq<byte>)
    requires |entry| == 11
    ensures forall i | 0 <= i < 8 :: entry[..8][i] == entry[i]
  {
  }

  lemma FrontFacts(base: seq<byte>, parts: seq<seq<byte>>)
    ensures var front := base + Dotted(parts);
      && base <= front && (parts == [] ==> front == base)
      && (parts != [] ==> |base| < |front| && front[|base|] == DOT)
  {
  }

  lemma FieldStart(front: seq<byte>, base: seq<byte>, more: bool)
    requires base <= front && (!more ==> front == base) && (more ==> |base| < |front| && front[|base|] == DOT)
    ensures !more || |base| >= 8 ==> Field(front, 8) == Field(base, 8)
    ensures more && |base| < 8 ==> Field(front, 8)[|base|] == DOT
  {
  }

  lemma {:induction false} LastPart(parts: seq<seq<byte>>)
    requires parts != []
    ensures Dotted(parts) == Dotted(parts[..|parts| - 1]) + [DOT] + parts[|parts| - 1]
  {
    if |parts| == 1 {
      assert parts[1..] == [] && parts[..0] == [];
    } else {
      LastPart(parts[1..]);
      var init := parts[..|parts| - 1];
      assert init[1..] == parts[1..][..|parts| - 2] && init[0] == parts[0];
    }
  }

  lemma LastDotIs(front: seq<byte>, last: seq<byte>)
    requires DOT !in last
    ensures LastDot(front + [DOT] + last) == |front|
  {
    Around(front, last);
    LastDotAt(front + [DOT] + last, |front|);
  }

  lemma LastDotAt(name: seq<byte>, k: nat)
    requires k < |name| && name[k] == DOT && forall i | k < i < |name| :: name[i] != DOT
    ensures LastDot(name) == k
  {
    var r := LastDot(name);
    assert r == |name| ==> DOT !in name;
  }

  lemma Around(front: seq<byte>, last: seq<byte>)
    ensures var name := front + [DOT] + last;
      && |name| == |front| + 1 + |last| && name[|front|] == DOT
      && name[..|front|] == front && name[|front| + 1..] == last
    ensures forall i | |front| < i < |front + [DOT] + last| :: (front + [DOT] + last)[i] == last[i - |front| - 1]
  {
  }

  // ---- Printing a name ---------------------------------------------------------------------

  function Trimmed(s: seq<byte>): seq<byte> {
    if s != [] && s[|s| - 1] == SPACE then Trimmed(s[..|s| - 1]) else s
  }

  /** ReadName and FormatName: both fields without the spaces at their ends, with a dot between if there is a second. */
  method FormatName(entryName: seq<byte>) returns (text: seq<byte>)
    requires |entryName| == 11
    ensures text == Trimmed(entryName[..8]) + if Trimmed(entryName[8..]) == [] then [] else [DOT] + Trimmed(entryName[8..])
  {
    var base := TrimField(entryName[..8]);
    var ext := TrimField(entryName[8..]);
    text := base;
    if ext != [] {
      text := text + [DOT] + ext;
      assert text == base + ([DOT] + ext);
    }
  }

  method TrimField(field: seq<byte>) returns (r: seq<byte>)
    ensures r == Trimmed(field)
  {
    var i := |field| - 1;
    assert field[..|field|] == field;
    while i >= 0 && field[i] == SPACE
      invariant -1 <= i < |field|
      invariant Trimmed(field[..i + 1]) == Trimmed(field)
    {
      assert field[..i + 1][..i] == field[..i];
      i := i - 1;
    }
    r := field[..i + 1];
  }

  lemma {:induction false} TrimSpaces(s: seq<byte>, n: nat)
    requires s == [] || s[|s| - 1] != SPACE
    ensures Trimmed(s + Spaces(n)) == s
  {
    if n == 0 {
      assert s + Spaces(0) == s;
    } else {
      TrimSpaces(s, n - 1);
      assert (s + Spaces(n))[..|s| + n - 1] == s + Spaces(n - 1);
    }
  }

  lemma TrimmedField(s: seq<byte>, n: nat)
    requires |s| <= n && (s == [] || s[|s| - 1] != SPACE)
    ensures Trimmed(Field(s, n)) == UpperAll(s)
  {
    TrimSpaces(UpperAll(s), n - |s|);
    assert Field(s, n) == UpperAll(s) + Spaces(n - |s|);
  }

  /** A valid name is printed in upper case. */
  lemma ValidNamePrints(name: seq<byte>)
    requires Valid83(name)
    ensures
      var entry := EntryName(name);
      Trimmed(entry[..8]) + (if Trimmed(entry[8..]) == [] then [] else [DOT] + Trimmed(entry[8..])) == UpperAll(name)
  {
    var dot := LastDot(name);
    var base := name[..dot];
    if dot < |name| {
      assert name == base + [DOT] + name[dot + 1..];
      hide EntryName, LastDot, Trimmed, Field, UpperAll;
      EntryParts(name);
      TrimmedField(base, 8);
      TrimmedField(name[dot + 1..], 3);
      UpperConcat(base, name[dot + 1..]);
    } else {
      assert name == base;
      hide EntryName, LastDot, Trimmed, Field, UpperAll;
      EntryParts(name);
      TrimmedField(base, 8);
      NoExtension();
    }
  }

  lemma EntryParts(name: seq<byte>)
    ensures LastDot(name) <= |name| && EntryName(name)[..8] == Field(name[..LastDot(name)], 8)
    ensures EntryName(name)[8..] == if LastDot(name) < |name| then Field(name[LastDot(name) + 1..], 3) else Spaces(3)
  {
    hide Field, LastDot;
  }

  lemma NoExtension()
    ensures Trimmed(Spaces(3)) == []
  {
    TrimSpaces([], 3);
    assert [] + Spaces(3) == Spaces(3);
  }

  lemma UpperConcat(a: seq<byte>, b: seq<byte>)
    ensures UpperAll(a + [DOT] + b) == UpperAll(a) + ([DOT] + UpperAll(b))
  {
  }
}
