/** The serializer sorts every level of the tree it walks; sorting changes neither which
    paths a tree describes nor whether it reads back, so the round trip holds for a
    listing in any order. */
module ListingOrder {
  import opened Text
  import opened FileSystem
  import opened Builder
  import opened Serializer
  import opened RoundTrip

  // ----- a tree's map, entry by entry -----

  /** What one entry of a listing under p contributes to the tree's map. */
  function EntryMap(p: Path, e: Entry): map<Path, Node> {
    map[p + [e.name] := NodeOf(e)] + (if e.Dir? then TreeMap(p + [e.name], e.children) else map[])
  }

  /** Two entries add the same paths with the same values. */
  predicate SameMap(p: Path, e: Entry, f: Entry) {
    EntryMap(p, e) == EntryMap(p, f)
  }

  /** Some entry of b adds what e adds. */
  predicate Matched(p: Path, b: seq<Entry>, e: Entry) {
    exists j :: 0 <= j < |b| && SameMap(p, b[j], e)
  }

  predicate DistinctNames(items: seq<Entry>) {
    forall j, k :: 0 <= j < k < |items| ==> items[j].name != items[k].name
  }

  lemma TreeMapCons(p: Path, items: seq<Entry>)
    requires items != []
    ensures TreeMap(p, items) == EntryMap(p, items[0]) + TreeMap(p, items[1..])
  {
  }

  /** An entry's paths all lie below p, under the entry's own name. */
  lemma EntryMapBelow(p: Path, e: Entry)
    ensures forall q :: q in EntryMap(p, e) ==> Below(q, p) && q[|p|] == e.name
  {
    var pe := p + [e.name];
    if e.Dir? {
      TreeMapBelow(pe, e.children);
      forall q | q in TreeMap(pe, e.children) ensures Below(q, p) && q[|p|] == e.name {
        assert q[..|pe|] == pe;
        assert q[..|pe|][..|p|] == q[..|p|];
        assert q[|p|] == q[..|pe|][|p|];
      }
    }
    assert pe[..|p|] == p;
  }

  /** Every path of a tree's map comes from one of its entries. */
  lemma {:induction false} TreeMapCovered(p: Path, items: seq<Entry>)
    ensures forall q :: q in TreeMap(p, items) ==> exists k :: 0 <= k < |items| && q in EntryMap(p, items[k])
    decreases |items|
  {
    if items != [] {
      TreeMapCons(p, items);
      TreeMapCovered(p, items[1..]);
      forall q | q in TreeMap(p, items) ensures exists k :: 0 <= k < |items| && q in EntryMap(p, items[k]) {
        if q !in EntryMap(p, items[0]) {
          var j :| 0 <= j < |items[1..]| && q in EntryMap(p, items[1..][j]);
          assert items[1..][j] == items[j + 1];
        }
      }
    }
  }

  /** The first entry's paths are not reached by the rest when names are distinct. */
  lemma FirstApart(p: Path, items: seq<Entry>)
    requires items != [] && DistinctNames(items)
    ensures forall q :: q in EntryMap(p, items[0]) ==> q !in TreeMap(p, items[1..])
  {
    var rest := items[1..];
    forall j | 0 <= j < |rest| ensures rest[j].name != items[0].name {
      assert rest[j] == items[j + 1];
    }
    assert items[0].name !in Names(rest);
    TreeMapBelow(p, rest);
    EntryMapBelow(p, items[0]);
  }

  /** With distinct names, each entry's paths keep their values in the tree's map. */
  lemma {:induction false} TreeMapValue(p: Path, items: seq<Entry>, k: nat, q: Path)
    requires DistinctNames(items) && k < |items| && q in EntryMap(p, items[k])
    ensures q in TreeMap(p, items) && TreeMap(p, items)[q] == EntryMap(p, items[k])[q]
    decreases k
  {
    TreeMapCons(p, items);
    if k == 0 {
      FirstApart(p, items);
    } else {
      assert items[1..][k - 1] == items[k];
      TreeMapValue(p, items[1..], k - 1, q);
    }
  }

  /** The paths of a is contained in b's with the same values when every entry of a adds
      what some entry of b adds. */
  lemma Covers(p: Path, a: seq<Entry>, b: seq<Entry>)
    requires DistinctNames(a) && DistinctNames(b)
    requires forall k :: 0 <= k < |a| ==> Matched(p, b, a[k])
    ensures forall q :: q in TreeMap(p, a) ==> q in TreeMap(p, b) && TreeMap(p, b)[q] == TreeMap(p, a)[q]
  {
    TreeMapCovered(p, a);
    forall q | q in TreeMap(p, a) ensures q in TreeMap(p, b) && TreeMap(p, b)[q] == TreeMap(p, a)[q] {
      var k :| 0 <= k < |a| && q in EntryMap(p, a[k]);
      var j :| 0 <= j < |b| && SameMap(p, b[j], a[k]);
      TreeMapValue(p, a, k, q);
      TreeMapValue(p, b, j, q);
    }
  }

  /** Two listings with distinct names whose entries add the same maps, each matched in
      the other, describe the same paths. */
  lemma SameEntries(p: Path, a: seq<Entry>, b: seq<Entry>)
    requires DistinctNames(a) && DistinctNames(b)
    requires forall k :: 0 <= k < |a| ==> Matched(p, b, a[k])
    requires forall j :: 0 <= j < |b| ==> Matched(p, a, b[j])
    ensures TreeMap(p, a) == TreeMap(p, b)
  {
    Covers(p, a, b);
    Covers(p, b, a);
  }

  // ----- a permutation keeps names distinct -----

  /** An entry that occurs twice has two positions. */
  lemma {:induction false} TwiceAt(s: seq<Entry>, x: Entry)
    requires multiset(s)[x] >= 2
    ensures exists i, j :: 0 <= i < j < |s| && s[i] == x && s[j] == x
    decreases |s|
  {
    assert s == [s[0]] + s[1..];
    if s[0] == x {
      assert x in multiset(s[1..]);
      var j :| 0 <= j < |s[1..]| && s[1..][j] == x;
      assert s[j + 1] == x;
    } else {
      TwiceAt(s[1..], x);
      var i, j :| 0 <= i < j < |s[1..]| && s[1..][i] == x && s[1..][j] == x;
      assert s[i + 1] == x && s[j + 1] == x;
    }
  }

  /** Rearranging a listing with distinct names keeps them distinct. */
  lemma PermutedDistinct(a: seq<Entry>, b: seq<Entry>)
    requires multiset(a) == multiset(b) && DistinctNames(a)
    ensures DistinctNames(b)
  {
    forall j, k | 0 <= j < k < |b| ensures b[j].name != b[k].name {
      assert b[j] in multiset(a) && b[k] in multiset(a);
      var i1 :| 0 <= i1 < |a| && a[i1] == b[j];
      var i2 :| 0 <= i2 < |a| && a[i2] == b[k];
      if i1 == i2 {
        TwoPlaces(b, j, k);
        TwiceAt(a, b[j]);
      }
    }
  }

  /** An entry at two positions occurs twice. */
  lemma TwoPlaces(b: seq<Entry>, j: nat, k: nat)
    requires j < k < |b| && b[j] == b[k]
    ensures multiset(b)[b[j]] >= 2
  {
    assert b == b[..k] + b[k..];
    assert b[..k][j] == b[j];
    assert b[k..][0] == b[k];
    assert multiset(b)[b[j]] == multiset(b[..k])[b[j]] + multiset(b[k..])[b[j]];
  }

  // ----- sorting every level -----

  /** Sorting every level keeps a tree well formed and keeps its set of names. */
  lemma {:induction false} SortTreeWellFormed(listing: seq<Entry>)
    requires WellFormed(listing)
    ensures WellFormed(SortTree(listing)) && Names(SortTree(listing)) == Names(listing)
    decreases listing, 1
  {
    var items := Sort(listing);
    assert forall k :: 0 <= k < |items| ==> items[k] in multiset(listing);
    var r := Tidy(listing, items);
    SortFacts(listing);
    TidyNames(listing, items);
    PermutedDistinct(listing, items);
    forall k | 0 <= k < |r| ensures ValidName(r[k].name) && (r[k].File? ==> '.' in r[k].name)
      && (r[k].Dir? ==> WellFormed(r[k].children))
    {
      TidyWellFormed(listing, items, k);
    }
    SortTreeNames(listing);
  }

  /** A re-sorted entry of a well-formed listing is well formed. */
  lemma {:induction false} TidyWellFormed(listing: seq<Entry>, items: seq<Entry>, k: nat)
    requires WellFormed(listing)
    requires forall i :: 0 <= i < |items| ==> items[i] in listing
    requires k < |items|
    ensures var e := Tidy(listing, items)[k];
      ValidName(e.name) && (e.File? ==> '.' in e.name) && (e.Dir? ==> WellFormed(e.children))
    decreases listing, 0
  {
    TidyNames(listing, items);
    var i :| 0 <= i < |listing| && listing[i] == items[k];
    if items[k].Dir? {
      SortTreeWellFormed(items[k].children);
    }
  }

  /** Sorting a level keeps its set of names. */
  lemma SortTreeNames(listing: seq<Entry>)
    ensures Names(SortTree(listing)) == Names(listing)
  {
    var items := Sort(listing);
    assert forall k :: 0 <= k < |items| ==> items[k] in multiset(listing);
    SortFacts(listing);
    TidyNames(listing, items);
    NamesPointwise(Tidy(listing, items), items);
    NamesPermuted(items, listing);
    NamesPermuted(listing, items);
  }

  /** Listings with the same name at every position have the same names. */
  lemma NamesPointwise(a: seq<Entry>, b: seq<Entry>)
    requires |a| == |b| && forall k :: 0 <= k < |a| ==> a[k].name == b[k].name
    ensures Names(a) == Names(b)
  {
    forall n | n in Names(a) ensures n in Names(b) {
      var k :| 0 <= k < |a| && a[k].name == n;
      assert b[k].name == n;
    }
    forall n | n in Names(b) ensures n in Names(a) {
      var k :| 0 <= k < |b| && b[k].name == n;
      assert a[k].name == n;
    }
  }

  /** Every name of a listing is a name of any rearrangement of it. */
  lemma NamesPermuted(a: seq<Entry>, b: seq<Entry>)
    requires multiset(a) == multiset(b)
    ensures Names(a) <= Names(b)
  {
    forall n | n in Names(a) ensures n in Names(b) {
      var k :| 0 <= k < |a| && a[k].name == n;
      assert a[k] in multiset(b);
      var j :| 0 <= j < |b| && b[j] == a[k];
      assert b[j].name == n;
    }
  }

  /** Sorting every level of a well-formed tree keeps the paths it describes. */
  lemma {:induction false} SortTreeMap(p: Path, listing: seq<Entry>)
    requires WellFormed(listing)
    ensures TreeMap(p, SortTree(listing)) == TreeMap(p, listing)
    decreases listing, 2
  {
    SortTreeWellFormed(listing);
    SortedMatched(p, listing);
    ListingMatched(p, listing);
    SameEntries(p, SortTree(listing), listing);
  }

  /** Every entry of the sorted level adds what some entry of the listing adds. */
  lemma {:induction false} SortedMatched(p: Path, listing: seq<Entry>)
    requires WellFormed(listing)
    ensures forall k :: 0 <= k < |SortTree(listing)| ==> Matched(p, listing, SortTree(listing)[k])
    decreases listing, 1
  {
    var items := Sort(listing);
    assert forall k :: 0 <= k < |items| ==> items[k] in multiset(listing);
    var r := Tidy(listing, items);
    forall k | 0 <= k < |r| ensures Matched(p, listing, r[k]) {
      var i :| 0 <= i < |listing| && listing[i] == items[k];
      TidyEntry(p, listing, items, k);
      assert SameMap(p, listing[i], r[k]);
    }
  }

  /** Every entry of the listing adds what some entry of the sorted level adds. */
  lemma {:induction false} ListingMatched(p: Path, listing: seq<Entry>)
    requires WellFormed(listing)
    ensures forall j :: 0 <= j < |listing| ==> Matched(p, SortTree(listing), listing[j])
    decreases listing, 1
  {
    var items := Sort(listing);
    assert forall k :: 0 <= k < |items| ==> items[k] in multiset(listing);
    var r := Tidy(listing, items);
    SortFacts(listing);
    forall j | 0 <= j < |listing| ensures Matched(p, r, listing[j]) {
      assert listing[j] in multiset(items);
      var k :| 0 <= k < |items| && items[k] == listing[j];
      TidyEntry(p, listing, items, k);
    }
  }

  /** A re-sorted entry adds the paths the entry adds. */
  lemma {:induction false} TidyEntry(p: Path, listing: seq<Entry>, items: seq<Entry>, k: nat)
    requires WellFormed(listing)
    requires forall i :: 0 <= i < |items| ==> items[i] in listing
    requires k < |items|
    ensures SameMap(p, Tidy(listing, items)[k], items[k])
    decreases listing, 0
  {
    TidyNames(listing, items);
    var e := items[k];
    var i :| 0 <= i < |listing| && listing[i] == e;
    if e.Dir? {
      SortTreeMap(p + [e.name], e.children);
    } else {
      assert Tidy(listing, items)[k] == Entry.File(e.name);
    }
  }

  // ----- the round trip for any listing order -----

  /** The root label line followed by generate_project_structure's text for any
      well-formed tree, split on '\n', builds exactly the root, its ancestors and the
      tree's paths, whatever order each level was listed in. */
  lemma TextRoundTrip(base: Path, fs: map<Path, Node>, root: string, tree: seq<Entry>)
    requires ValidName(root) && WellFormed(tree)
    requires Consistent(fs) && !FileOnPath(fs, base + [root]) && Fresh(fs, base + [root], Names(tree))
    ensures var o := Run(base, fs, [], Split(root + "/\n" + Generate("", tree), '\n'));
      o.Done? && o.fs == fs + Ancestry(base + [root]) + TreeMap(base + [root], tree)
  {
    var s := SortTree(tree);
    GenerateSorted("", tree);
    SortTreeOrdered(tree);
    GenerateLines("", s);
    SortTreeWellFormed(tree);
    SortTreeMap(base + [root], tree);
    OrderedTextRoundTrip(base, fs, root, s);
  }
}
