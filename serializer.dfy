/** The tree serializer, generate_project_structure: a directory listing rendered as tree
    text, entries in sorted order, one line each, subdirectories recursively below their
    own line with a prefix four characters longer. */
module Serializer {
  import opened Text

  /** A directory entry as os.listdir and os.path.isdir see it. */
  datatype Entry = File(name: string) | Dir(name: string, children: seq<Entry>)

  /** Python's string order: code point by code point, a proper prefix first. */
  predicate LexLe(a: string, b: string)
    decreases |a|
  {
    a == [] || (b != [] && (a[0] < b[0] || (a[0] == b[0] && LexLe(a[1..], b[1..]))))
  }

  /** Any two names are comparable. */
  lemma {:induction false} LexTotal(a: string, b: string)
    ensures LexLe(a, b) || LexLe(b, a)
    decreases |a|
  {
    if a != [] && b != [] && a[0] == b[0] {
      LexTotal(a[1..], b[1..]);
    }
  }

  lemma {:induction false} LexTrans(a: string, b: string, c: string)
    requires LexLe(a, b) && LexLe(b, c)
    ensures LexLe(a, c)
    decreases |a|
  {
    if a != [] && a[0] == b[0] && b[0] == c[0] {
      LexTrans(a[1..], b[1..], c[1..]);
    }
  }

  /** Names in non-decreasing order. */
  predicate Sorted(s: seq<Entry>) {
    forall i, j :: 0 <= i < j < |s| ==> LexLe(s[i].name, s[j].name)
  }

  function Insert(x: Entry, s: seq<Entry>): (r: seq<Entry>)
    ensures multiset(r) == multiset(s) + multiset{x}
  {
    if s == [] then [x]
    else if LexLe(x.name, s[0].name) then [x] + s
    else
      assert s == [s[0]] + s[1..];
      [s[0]] + Insert(x, s[1..])
  }

  /** items.sort(), on the entry names. */
  function Sort(s: seq<Entry>): (r: seq<Entry>)
    ensures multiset(r) == multiset(s)
  {
    if s == [] then []
    else
      assert s == [s[0]] + s[1..];
      Insert(s[0], Sort(s[1..]))
  }

  lemma {:induction false} InsertSorted(x: Entry, s: seq<Entry>)
    requires Sorted(s)
    ensures Sorted(Insert(x, s))
  {
    if s != [] && LexLe(x.name, s[0].name) {
      InsertFront(x, s);
    } else if s != [] {
      LexTotal(x.name, s[0].name);
      InsertSorted(x, s[1..]);
      InsertLater(x, s, Insert(x, s[1..]));
    }
  }

  lemma InsertFront(x: Entry, s: seq<Entry>)
    requires Sorted(s) && s != [] && LexLe(x.name, s[0].name)
    ensures Sorted([x] + s)
  {
    var r := [x] + s;
    forall i, j | 0 <= i < j < |r| ensures LexLe(r[i].name, r[j].name) {
      if i > 0 {
        assert r[i] == s[i - 1] && r[j] == s[j - 1];
      } else if j > 1 {
        assert r[j] == s[j - 1];
        LexTrans(x.name, s[0].name, s[j - 1].name);
      }
    }
  }

  lemma InsertLater(x: Entry, s: seq<Entry>, t: seq<Entry>)
    requires Sorted(s) && s != [] && LexLe(s[0].name, x.name)
    requires Sorted(t) && multiset(t) == multiset(s[1..]) + multiset{x}
    ensures Sorted([s[0]] + t)
  {
    forall k | 0 <= k < |t| ensures LexLe(s[0].name, t[k].name) {
      assert t[k] in multiset(s[1..]) + multiset{x};
      if t[k] != x {
        var j :| 0 <= j < |s[1..]| && s[1..][j] == t[k];
        assert s[1..][j] == s[j + 1];
      }
    }
    var r := [s[0]] + t;
    forall i, j | 0 <= i < j < |r| ensures LexLe(r[i].name, r[j].name) {
      if i > 0 {
        assert r[i] == t[i - 1] && r[j] == t[j - 1];
      } else {
        assert r[j] == t[j - 1];
      }
    }
  }

  /** The sort puts the entries in order and keeps each exactly once. */
  lemma {:induction false} SortFacts(s: seq<Entry>)
    ensures Sorted(Sort(s))
    ensures multiset(Sort(s)) == multiset(s) && |Sort(s)| == |s|
  {
    if s != [] {
      SortFacts(s[1..]);
      InsertSorted(s[0], Sort(s[1..]));
    }
    assert |multiset(Sort(s))| == |multiset(s)|;
  }

  /** A listing already in order is left as it is. */
  lemma {:induction false} SortOfSorted(s: seq<Entry>)
    requires Sorted(s)
    ensures Sort(s) == s
  {
    if s != [] {
      assert Sorted(s[1..]) by {
        forall i, j | 0 <= i < j < |s[1..]| ensures LexLe(s[1..][i].name, s[1..][j].name) {
          assert s[1..][i] == s[i + 1] && s[1..][j] == s[j + 1];
        }
      }
      SortOfSorted(s[1..]);
      if s[1..] != [] {
        assert s[1..][0] == s[1];
      }
      assert [s[0]] + s[1..] == s;
    }
  }

  /** The two connectors: '├── ' before every entry but the last, '└── ' before the last. */
  function Pointer(last: bool): string {
    if last then "└── " else "├── "
  }

  /** What the prefix grows by for the entries inside a directory. */
  function Extension(last: bool): string {
    if last then "    " else "│   "
  }

  /** The text of an entry's own line: a directory's name carries a trailing '/'. */
  function Label(e: Entry): string {
    if e.Dir? then e.name + "/" else e.name
  }

  /** generate_project_structure(directory, prefix) as written: the listing sorted, one
      string per entry, a directory's recursive result appended as one more string, and
      the strings joined with '\n'. */
  function Generate(prefix: string, listing: seq<Entry>): string
    decreases listing, 1
  {
    var items := Sort(listing);
    assert forall k :: 0 <= k < |items| ==> items[k] in multiset(listing);
    Join(Structure(prefix, listing, items, 0), '\n')
  }

  /** The list `structure` built by the loop from entry i on; listing is the unsorted
      listing, kept only to bound the recursion. */
  function Structure(prefix: string, listing: seq<Entry>, items: seq<Entry>, i: nat): seq<string>
    requires forall k :: 0 <= k < |items| ==> items[k] in listing
    decreases listing, 0, |items| - i
  {
    if i >= |items| then []
    else
      var last := i == |items| - 1;
      var line := prefix + Pointer(last) + Label(items[i]);
      match items[i]
      case File(_) => [line] + Structure(prefix, listing, items, i + 1)
      case Dir(_, cs) =>
        assert items[i] in listing;
        [line, Generate(prefix + Extension(last), cs)] + Structure(prefix, listing, items, i + 1)
  }

  /** The serializer's output as a flat list of lines, for entries given in listing order:
      each entry's line, then a directory's own lines, or one empty line for an empty
      directory, whose recursive result is the empty string. */
  function Lines(prefix: string, items: seq<Entry>): seq<string>
    decreases items
  {
    if items == [] then []
    else
      var last := |items| == 1;
      var line := prefix + Pointer(last) + Label(items[0]);
      match items[0]
      case File(_) => [line] + Lines(prefix, items[1..])
      case Dir(_, cs) => [line] + Blank(Lines(prefix + Extension(last), cs)) + Lines(prefix, items[1..])
  }

  /** The lines a recursive call contributes: one empty line in place of none. */
  function Blank(ls: seq<string>): (r: seq<string>)
    ensures r != []
  {
    if ls == [] then [[]] else ls
  }

  /** Every level of the tree is in sorted order, as the serializer lists it. */
  predicate Ordered(items: seq<Entry>) {
    Sorted(items) && forall k :: 0 <= k < |items| && items[k].Dir? ==> Ordered(items[k].children)
  }

  /** For a tree whose levels are already in the serializer's order, its output is one
      join over the tree's flat lines. */
  lemma GenerateLines(prefix: string, listing: seq<Entry>)
    requires Ordered(listing)
    ensures Generate(prefix, listing) == Join(Lines(prefix, listing), '\n')
  {
    GenerateSorted(prefix, listing);
    SortTreeOfOrdered(listing);
  }

  /** The flat lines of an entry followed by more: its line, a directory's lines, then
      the rest. */
  lemma LinesCons(prefix: string, e: Entry, rest: seq<Entry>)
    ensures var last := rest == [];
      Lines(prefix, [e] + rest)
      == [prefix + Pointer(last) + Label(e)]
         + (if e.Dir? then Blank(Lines(prefix + Extension(last), e.children)) else [])
         + Lines(prefix, rest)
  {
    assert ([e] + rest)[1..] == rest;
  }

  /** A directory's line, its recursive result and the rest join as its line, its flat
      lines and the rest do. */
  lemma JoinEntry(line: string, g: string, restS: seq<string>, b: seq<string>, restL: seq<string>)
    requires b != [] && Join(b, '\n') == g
    requires Join(restS, '\n') == Join(restL, '\n') && (restS == [] <==> restL == [])
    ensures Join([line] + [g] + restS, '\n') == Join([line] + b + restL, '\n')
  {
    if restL != [] {
      JoinAppend(b, restL);
      JoinCons(g, restS, '\n');
    } else {
      assert b + restL == b;
    }
    assert [line] + [g] + restS == [line] + ([g] + restS);
    assert [line] + b + restL == [line] + (b + restL);
    JoinCons(line, [g] + restS, '\n');
    JoinCons(line, b + restL, '\n');
  }

  /** One more piece in front of two lists that join to the same text. */
  lemma JoinFront(a: string, xs: seq<string>, ys: seq<string>)
    requires Join(xs, '\n') == Join(ys, '\n') && (xs == [] <==> ys == [])
    ensures Join([a] + xs, '\n') == Join([a] + ys, '\n')
  {
    if xs != [] {
      JoinCons(a, xs, '\n');
      JoinCons(a, ys, '\n');
    }
  }

  lemma {:induction false} JoinAppend(xs: seq<string>, ys: seq<string>)
    requires xs != [] && ys != []
    ensures Join(xs + ys, '\n') == Join(xs, '\n') + "\n" + Join(ys, '\n')
    decreases |xs|
  {
    if |xs| == 1 {
      JoinCons(xs[0], ys, '\n');
      assert xs + ys == [xs[0]] + ys;
    } else {
      JoinAppend(xs[1..], ys);
      assert xs + ys == [xs[0]] + (xs[1..] + ys);
      JoinCons(xs[0], xs[1..] + ys, '\n');
      JoinCons(xs[0], xs[1..], '\n');
      assert [xs[0]] + xs[1..] == xs;
    }
  }

  // ----- whatever order the listing comes in -----

  /** The tree as the serializer walks it: every level sorted by name. */
  function SortTree(listing: seq<Entry>): seq<Entry>
    decreases listing, 1
  {
    var items := Sort(listing);
    assert forall k :: 0 <= k < |items| ==> items[k] in multiset(listing);
    Tidy(listing, items)
  }

  /** Entries of one level with each directory's own entries sorted in turn. */
  function Tidy(listing: seq<Entry>, items: seq<Entry>): (r: seq<Entry>)
    requires forall k :: 0 <= k < |items| ==> items[k] in listing
    ensures |r| == |items|
    decreases listing, 0, |items|
  {
    if items == [] then []
    else
      assert items[0] in listing;
      var head := match items[0]
        case File(n) => Entry.File(n)
        case Dir(n, cs) => Entry.Dir(n, SortTree(cs));
      [head] + Tidy(listing, items[1..])
  }

  lemma TidyCons(listing: seq<Entry>, items: seq<Entry>, i: nat)
    requires forall k :: 0 <= k < |items| ==> items[k] in listing
    requires i < |items|
    ensures var e := items[i];
      Tidy(listing, items[i..])
      == [if e.Dir? then Entry.Dir(e.name, SortTree(e.children)) else e] + Tidy(listing, items[i + 1..])
  {
    assert items[i..][0] == items[i] && items[i..][1..] == items[i + 1..];
  }

  /** The serializer's output, for a listing in any order, is the flat lines of the tree
      sorted at every level. */
  lemma {:induction false} GenerateSorted(prefix: string, listing: seq<Entry>)
    ensures Generate(prefix, listing) == Join(Lines(prefix, SortTree(listing)), '\n')
    decreases listing, 1
  {
    var items := Sort(listing);
    assert forall k :: 0 <= k < |items| ==> items[k] in multiset(listing);
    StructureTidy(prefix, listing, items, 0);
    assert items[0..] == items;
  }

  lemma {:induction false} StructureTidy(prefix: string, listing: seq<Entry>, items: seq<Entry>, i: nat)
    requires forall k :: 0 <= k < |items| ==> items[k] in listing
    requires i <= |items|
    ensures Join(Structure(prefix, listing, items, i), '\n') == Join(Lines(prefix, Tidy(listing, items[i..])), '\n')
    decreases listing, 0, |items| - i
  {
    if i < |items| {
      var e := items[i];
      var last := i == |items| - 1;
      var line := prefix + Pointer(last) + Label(e);
      var restS := Structure(prefix, listing, items, i + 1);
      var restL := Lines(prefix, Tidy(listing, items[i + 1..]));
      StructureTidy(prefix, listing, items, i + 1);
      StructureStep(prefix, listing, items, i);
      TidyLines(prefix, listing, items, i);
      assert restS == [] <==> restL == [];
      if e.Dir? {
        assert e in listing;
        var sub := prefix + Extension(last);
        GenerateSorted(sub, e.children);
        JoinEntry(line, Generate(sub, e.children), restS, Blank(Lines(sub, SortTree(e.children))), restL);
      } else {
        JoinFront(line, restS, restL);
      }
    }
  }

  /** The flat lines of the tidied entries from i on: entry i's line, a directory's
      sorted lines, then the rest, which is empty exactly when entry i is the last. */
  lemma TidyLines(prefix: string, listing: seq<Entry>, items: seq<Entry>, i: nat)
    requires forall k :: 0 <= k < |items| ==> items[k] in listing
    requires i < |items|
    ensures var e, last := items[i], i == |items| - 1;
      var restL := Lines(prefix, Tidy(listing, items[i + 1..]));
      Lines(prefix, Tidy(listing, items[i..]))
      == [prefix + Pointer(last) + Label(e)]
         + (if e.Dir? then Blank(Lines(prefix + Extension(last), SortTree(e.children))) else [])
         + restL
      && (restL == [] <==> last)
      && (!last ==> Structure(prefix, listing, items, i + 1) != [])
      && (last ==> Structure(prefix, listing, items, i + 1) == [])
  {
    var e := items[i];
    var t := if e.Dir? then Entry.Dir(e.name, SortTree(e.children)) else e;
    var restT := Tidy(listing, items[i + 1..]);
    TidyCons(listing, items, i);
    LinesCons(prefix, t, restT);
    assert Label(t) == Label(e);
  }

  /** Entry i of the serializer's loop over items: its line, then a directory's
      recursive result. */
  lemma StructureStep(prefix: string, listing: seq<Entry>, items: seq<Entry>, i: nat)
    requires forall k :: 0 <= k < |items| ==> items[k] in listing
    requires i < |items|
    ensures var e, last := items[i], i == |items| - 1;
      Structure(prefix, listing, items, i)
      == [prefix + Pointer(last) + Label(e)]
         + (if e.Dir? then [Generate(prefix + Extension(last), e.children)] else [])
         + Structure(prefix, listing, items, i + 1)
  {
  }

  /** Tidying keeps each entry's kind and name in place. */
  lemma {:induction false} TidyNames(listing: seq<Entry>, items: seq<Entry>)
    requires forall k :: 0 <= k < |items| ==> items[k] in listing
    ensures forall k :: 0 <= k < |items| ==>
      Tidy(listing, items)[k].name == items[k].name && Tidy(listing, items)[k].Dir? == items[k].Dir?
    ensures forall k :: 0 <= k < |items| && items[k].Dir? ==>
      Tidy(listing, items)[k].children == SortTree(items[k].children)
    decreases |items|
  {
    if items != [] {
      TidyNames(listing, items[1..]);
      var r := Tidy(listing, items);
      assert forall k :: 1 <= k < |items| ==> r[k] == Tidy(listing, items[1..])[k - 1] && items[k] == items[1..][k - 1];
    }
  }

  /** Every level of the sorted tree is in order, so it is what the serializer lists. */
  lemma {:induction false} SortTreeOrdered(listing: seq<Entry>)
    ensures Ordered(SortTree(listing))
    decreases listing
  {
    var items := Sort(listing);
    assert forall k :: 0 <= k < |items| ==> items[k] in multiset(listing);
    var r := Tidy(listing, items);
    SortFacts(listing);
    TidyNames(listing, items);
    forall k | 0 <= k < |r| && r[k].Dir? ensures Ordered(r[k].children) {
      assert items[k] in listing;
      SortTreeOrdered(items[k].children);
    }
  }

  /** Sorting every level of a tree that is in order already changes nothing. */
  lemma {:induction false} SortTreeOfOrdered(listing: seq<Entry>)
    requires Ordered(listing)
    ensures SortTree(listing) == listing
    decreases listing
  {
    SortOfSorted(listing);
    assert forall k :: 0 <= k < |listing| ==> listing[k] in multiset(listing);
    var r := Tidy(listing, listing);
    TidyNames(listing, listing);
    forall k | 0 <= k < |listing| ensures r[k] == listing[k] {
      if listing[k].Dir? {
        SortTreeOfOrdered(listing[k].children);
      }
    }
  }

  /** An empty directory: its recursive result is the empty string, so its line is
      followed by one empty line. */
  lemma EmptyDirectoryLines(prefix: string, n: string, rest: seq<Entry>)
    ensures Generate(prefix + Extension(rest == []), []) == []
    ensures Lines(prefix, [Entry.Dir(n, [])] + rest)
      == [prefix + Pointer(rest == []) + n + "/", []] + Lines(prefix, rest)
  {
    var e := Entry.Dir(n, []);
    var none: seq<Entry> := [];
    LinesCons(prefix, e, rest);
    assert Lines(prefix + Extension(rest == []), none) == [];
    var b := Blank(Lines(prefix + Extension(rest == []), e.children));
    assert b == [[]];
    var line := prefix + Pointer(rest == []) + Label(e);
    assert line == prefix + Pointer(rest == []) + n + "/";
    assert [line] + b + Lines(prefix, rest) == [line, []] + Lines(prefix, rest);
  }
}
