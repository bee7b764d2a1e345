/** The builder read back against the serializer: a root label line followed by a
    tree's listing-order lines rebuilds the tree under that root, as the default
    template's layout does; without the root line, the top-level entries nest into one
    another. */
module RoundTrip {
  import opened Text
  import opened FileSystem
  import opened Builder
  import opened Serializer

  // ----- reading one serialized line -----

  /** The indentation the serializer puts before an entry: blocks of '│   ' and '    '. */
  predicate IsIndent(p: string) {
    |p| % 4 == 0 && forall i :: 0 <= i < |p| ==> p[i] == '│' || p[i] == ' '
  }

  /** A label the builder reads back unchanged: it starts with neither a glyph nor
      whitespace, ends without whitespace, and cleaning has nothing to delete in it. */
  predicate ReadsBack(l: string) {
    l != [] && !IsGlyph(l[0]) && !IsSpace(l[0]) && !IsSpace(l[|l| - 1])
    && '│' !in l && Remove(l, Tee) == l && Remove(l, Corner) == l
  }

  /** A name the round trip holds for: a single path component without line breaks,
      with no leading glyph or whitespace, no trailing whitespace, and none of the
      characters '│', '├' and '└' that cleaning deletes or that start a connector. */
  predicate ValidName(n: string) {
    n != [] && !IsGlyph(n[0]) && !IsSpace(n[0]) && !IsSpace(n[|n| - 1])
    && '/' !in n && '\n' !in n && '│' !in n && '├' !in n && '└' !in n
  }

  /** A valid name reads back, bare as a file's label and with '/' as a directory's. */
  lemma NameReadsBack(n: string)
    requires ValidName(n)
    ensures ReadsBack(n) && ReadsBack(n + "/")
  {
    PointerShape();
    AbsentByFirst(n, Tee);
    AbsentByFirst(n, Corner);
    RemoveAbsent(n, Tee);
    RemoveAbsent(n, Corner);
    RemoveSnoc(n, '/', Tee);
    RemoveSnoc(n, '/', Corner);
    assert (n + "/")[0] == n[0];
    assert forall c :: c in n + "/" ==> c in n || c == '/';
  }

  /** The connectors are the two glyph runs followed by a space. */
  lemma PointerShape()
    ensures Pointer(true) == Corner + " " && Pointer(false) == Tee + " "
    ensures Tee[0] == '├' && Corner[0] == '└' && Bar == ['│']
  {
  }

  /** A space ahead of a label that has no occurrence of pat: both pass through. */
  lemma SpacedLabelPass(l: string, pat: string)
    requires pat != [] && pat[0] != ' ' && Remove(l, pat) == l
    ensures Remove(" " + l, pat) == " " + l
  {
    RemoveAfterFree(" ", l, pat);
  }

  /** A connector at the front of a label is deleted, leaving its space. */
  lemma ConnectorPass(pat: string, l: string)
    requires pat != [] && pat[0] != ' ' && Remove(l, pat) == l
    ensures Remove(pat + " " + l, pat) == " " + l
  {
    assert pat + " " + l == pat + (" " + l);
    RemoveAtFront(" " + l, pat);
    SpacedLabelPass(l, pat);
  }

  /** Indentation passes through the tee and corner passes unchanged. */
  lemma IndentPass(prefix: string, rest: string, pat: string)
    requires IsIndent(prefix) && pat != [] && (pat[0] == '├' || pat[0] == '└')
    ensures Remove(prefix + rest, pat) == prefix + Remove(rest, pat)
  {
    RemoveAfterFree(prefix, rest, pat);
  }

  /** The tee pass: a '├──' connector is deleted and the rest passes through. */
  lemma TeePass(prefix: string, last: bool, l: string)
    requires IsIndent(prefix) && ReadsBack(l)
    ensures Remove(prefix + Pointer(last) + l, Tee) == prefix + (if last then Pointer(true) else " ") + l
  {
    var ptr := Pointer(last);
    PointerShape();
    assert prefix + ptr + l == prefix + (ptr + l);
    IndentPass(prefix, ptr + l, Tee);
    if last {
      RemoveAfterFree(ptr, l, Tee);
      assert prefix + (ptr + l) == prefix + ptr + l;
    } else {
      ConnectorPass(Tee, l);
      assert prefix + (" " + l) == prefix + " " + l;
    }
  }

  /** The corner pass: a '└──' connector is deleted, so both connectors leave one space. */
  lemma CornerPass(prefix: string, last: bool, l: string)
    requires IsIndent(prefix) && ReadsBack(l)
    ensures Remove(prefix + (if last then Pointer(true) else " ") + l, Corner) == prefix + " " + l
  {
    var mid := if last then Pointer(true) else " ";
    PointerShape();
    assert prefix + mid + l == prefix + (mid + l);
    IndentPass(prefix, mid + l, Corner);
    if last {
      ConnectorPass(Corner, l);
    } else {
      SpacedLabelPass(l, Corner);
    }
    assert prefix + (" " + l) == prefix + " " + l;
  }

  /** The bar pass: the indentation's bars go, leaving whitespace before the label. */
  lemma BarPass(prefix: string, l: string)
    requires IsIndent(prefix) && ReadsBack(l)
    ensures AllSpace(Remove(prefix, Bar) + " ")
    ensures Remove(prefix + " " + l, Bar) == Remove(prefix, Bar) + " " + l
  {
    PointerShape();
    LabelBarFree(l);
    CharPass(prefix, l, Bar);
    IndentBars(prefix);
  }

  /** A one-character pattern is removed from each side of a concatenation separately. */
  lemma CharPass(a: string, l: string, pat: string)
    requires |pat| == 1 && pat[0] != ' ' && Remove(l, pat) == l
    ensures Remove(a + " " + l, pat) == Remove(a, pat) + " " + l
  {
    var t := " " + l;
    assert a + " " + l == a + t;
    RemoveCharSplit(a, t, pat);
    SpacedLabelPass(l, pat);
    assert Remove(a, pat) + t == Remove(a, pat) + " " + l;
  }

  lemma LabelBarFree(l: string)
    requires ReadsBack(l)
    ensures Remove(l, Bar) == l
  {
    PointerShape();
    CharAbsent(l, '│');
    RemoveAbsent(l, Bar);
  }

  /** With the bars gone, indentation is all spaces. */
  lemma IndentBars(prefix: string)
    requires IsIndent(prefix)
    ensures AllSpace(Remove(prefix, Bar) + " ")
  {
    PointerShape();
    RemoveFacts(prefix, Bar);
    var sp := Remove(prefix, Bar);
    assert forall i :: 0 <= i < |sp| ==> sp[i] in prefix && sp[i] != '│';
    forall i | 0 <= i < |sp + " "| ensures IsSpace((sp + " ")[i]) {
      if i < |sp| {
        assert sp[i] == ' ';
      }
    }
  }

  /** A serialized entry line is read at one level below its indentation, and its label
      is exactly what the serializer wrote after the connector. */
  lemma EntryLineReads(prefix: string, last: bool, l: string)
    requires IsIndent(prefix) && ReadsBack(l)
    ensures var line := prefix + Pointer(last) + l;
      Strip(line) != [] && Depth(line) == |prefix| / 4 + 1 && Clean(line) == l
  {
    var ptr := Pointer(last);
    var line := prefix + ptr + l;
    assert forall i :: 0 <= i < |prefix + ptr| ==> IsGlyph((prefix + ptr)[i]);
    LeadRunAfterGlyphs(prefix + ptr, l);
    assert LeadRun(l) == 0;
    StripFacts(line);
    assert line[|prefix + ptr|] == l[0];
    TeePass(prefix, last, l);
    CornerPass(prefix, last, l);
    BarPass(prefix, l);
    StripPadded(Remove(prefix, Bar) + " ", l, []);
    assert Remove(prefix, Bar) + " " + l + [] == Remove(prefix, Bar) + " " + l;
  }

  /** One serialized entry line: the stack is cut to the entry's level and its label pushed. */
  lemma EntryStep(base: Path, fs: map<Path, Node>, stack: seq<string>, prefix: string, last: bool, l: string)
    requires IsIndent(prefix) && ReadsBack(l)
    ensures Step(base, fs, stack, prefix + Pointer(last) + l)
      == Create(base, fs, stack[..Min(|stack|, |prefix| / 4 + 1)] + [l])
  {
    EntryLineReads(prefix, last, l);
  }

  /** The root label line: nothing precedes it, so it is read at depth 0 as it is. */
  lemma RootStep(base: Path, fs: map<Path, Node>, l: string)
    requires ReadsBack(l)
    ensures Step(base, fs, [], l) == Create(base, fs, [l])
  {
    CharAbsent(l, '│');
    assert Bar == ['│'];
    RemoveAbsent(l, Bar);
    StripPadded([], l, []);
    assert [] + l + [] == l;
    StripFacts(l);
  }

  // ----- the tree the lines describe -----

  /** What an entry becomes on disk: a directory or an empty file. */
  function NodeOf(e: Entry): Node {
    if e.Dir? then Directory else Node.File([])
  }

  /** The entries of a tree, as paths under p. */
  function TreeMap(p: Path, items: seq<Entry>): map<Path, Node>
    decreases items
  {
    if items == [] then map[]
    else
      var e := items[0];
      (map[p + [e.name] := NodeOf(e)] + (if e.Dir? then TreeMap(p + [e.name], e.children) else map[]))
      + TreeMap(p, items[1..])
  }

  function Names(items: seq<Entry>): set<string> {
    set k | 0 <= k < |items| :: items[k].name
  }

  /** A tree the round trip holds for: valid names, every file name with a '.', and no
      two entries of a directory with the same name. */
  predicate WellFormed(items: seq<Entry>) {
    (forall k :: 0 <= k < |items| ==> ValidName(items[k].name))
    && (forall k :: 0 <= k < |items| && items[k].File? ==> '.' in items[k].name)
    && (forall j, k :: 0 <= j < k < |items| ==> items[j].name != items[k].name)
    && (forall k :: 0 <= k < |items| && items[k].Dir? ==> WellFormed(items[k].children))
  }

  /** q lies strictly below p. */
  predicate Below(q: Path, p: Path) {
    |q| > |p| && q[..|p|] == p
  }

  /** Nothing in fs below p starts with one of the names. */
  predicate Fresh(fs: map<Path, Node>, p: Path, names: set<string>) {
    forall q :: q in fs && Below(q, p) ==> q[|p|] !in names
  }

  /** Every prefix of p, p included, is a directory. */
  predicate DirChain(fs: map<Path, Node>, p: Path) {
    forall k :: 1 <= k <= |p| ==> p[..k] in fs && fs[p[..k]] == Directory
  }

  /** The entries of a tree all lie below p, under one of the tree's own names. */
  lemma {:induction false} TreeMapBelow(p: Path, items: seq<Entry>)
    ensures forall q :: q in TreeMap(p, items) ==> Below(q, p) && q[|p|] in Names(items)
    decreases items
  {
    if items != [] {
      var e := items[0];
      TreeMapBelow(p, items[1..]);
      assert Names(items[1..]) <= Names(items) by {
        forall n | n in Names(items[1..]) ensures n in Names(items) {
          var k :| 0 <= k < |items[1..]| && items[1..][k].name == n;
          assert items[k + 1].name == n;
        }
      }
      assert e.name in Names(items);
      var pe := p + [e.name];
      assert pe[..|p|] == p;
      if e.Dir? {
        TreeMapBelow(pe, e.children);
        forall q | q in TreeMap(pe, e.children) ensures Below(q, p) && q[|p|] == e.name {
          assert q[..|p|] == q[..|pe|][..|p|];
          assert q[|p|] == q[..|pe|][|p|];
        }
      }
    }
  }

  // ----- one entry -----

  /** Creating an entry whose directory exists and whose path is free adds exactly it. */
  lemma CreateEntryEffect(base: Path, fs: map<Path, Node>, st: seq<string>, e: Entry)
    requires st != [] && JoinPath(base, st) != [] && DirChain(fs, JoinPath(base, st))
    requires ValidName(e.name) && (e.File? ==> '.' in e.name)
    requires JoinPath(base, st) + [e.name] !in fs
    ensures Create(base, fs, st + [Label(e)])
      == Done(fs[JoinPath(base, st) + [e.name] := NodeOf(e)], st + [Label(e)])
  {
    var pp := JoinPath(base, st);
    var n := e.name;
    var st2 := st + [Label(e)];
    JoinPush(base, st, e);
    assert st2[|st2| - 1] == Label(e);
    if e.Dir? {
      assert Label(e)[|Label(e)| - 1] == '/';
      DirCreate(base, fs, st2, pp, n);
    } else {
      assert Label(e) == n && n[|n| - 1] != '/';
      FileCreate(base, fs, st2, pp, n);
    }
  }

  /** A directory entry on a free path below an existing chain adds that directory. */
  lemma DirCreate(base: Path, fs: map<Path, Node>, st: seq<string>, pp: Path, n: string)
    requires st != [] && JoinPath(base, st) == pp + [n] && !IsFile(st[|st| - 1])
    requires DirChain(fs, pp) && pp + [n] !in fs
    ensures Create(base, fs, st) == Done(fs[pp + [n] := Directory], st)
  {
    var p := pp + [n];
    forall k | 1 <= k <= |p| ensures !(p[..k] in fs && fs[p[..k]].File?) {
      if k <= |pp| {
        assert p[..k] == pp[..k];
      } else {
        assert p[..k] == p;
      }
    }
    AncestryOnChain(fs, pp, n);
  }

  /** A file entry on a free path below an existing chain adds that empty file. */
  lemma FileCreate(base: Path, fs: map<Path, Node>, st: seq<string>, pp: Path, n: string)
    requires st != [] && JoinPath(base, st) == pp + [n] && IsFile(st[|st| - 1])
    requires pp != [] && DirChain(fs, pp) && pp + [n] !in fs
    ensures Create(base, fs, st) == Done(fs[pp + [n] := Node.File([])], st)
  {
    assert DirName(pp + [n]) == pp;
    assert pp[..|pp|] == pp;
  }

  /** os.makedirs on a free path whose parent chain exists adds that one directory. */
  lemma AncestryOnChain(fs: map<Path, Node>, pp: Path, n: string)
    requires DirChain(fs, pp)
    ensures fs + Ancestry(pp + [n]) == fs[pp + [n] := Directory]
  {
    var p := pp + [n];
    forall q | q in Prefixes(p) && q != p ensures q in fs && fs[q] == Directory {
      var k :| 1 <= k <= |p| && q == p[..k];
      assert k <= |pp| && q == pp[..k];
    }
    assert p[..|p|] == p;
  }

  // ----- the whole rendering -----

  /** Run over a concatenation: the second part continues from the first part's outcome. */
  lemma {:induction false} RunAppend(base: Path, fs: map<Path, Node>, stack: seq<string>, a: seq<string>, b: seq<string>)
    ensures Run(base, fs, stack, a + b) == Then(base, Run(base, fs, stack, a), b)
    decreases |a|
  {
    if a == [] {
      assert a + b == b;
    } else {
      assert (a + b)[0] == a[0] && (a + b)[1..] == a[1..] + b;
      var o := Step(base, fs, stack, a[0]);
      if o.Done? {
        RunAppend(base, o.fs, o.stack, a[1..], b);
      }
    }
  }

  /** A blank line changes nothing. */
  lemma BlankRun(base: Path, fs: map<Path, Node>, stack: seq<string>)
    ensures Run(base, fs, stack, [[]]) == Done(fs, stack)
  {
    var blank: seq<string> := [[]];
    assert blank[1..] == [];
  }

  /** The lines the serializer writes for a directory at indentation prefix, read with the
      directory's stack st (plus whatever a preceding subtree left above it), create the
      directory's tree and leave st at the bottom of the stack. */
  lemma {:induction false} RenderRun(base: Path, fs: map<Path, Node>, stack: seq<string>, st: seq<string>,
                                     prefix: string, items: seq<Entry>)
    requires st != [] && |stack| >= |st| && stack[..|st|] == st
    requires IsIndent(prefix) && |prefix| == 4 * (|st| - 1)
    requires WellFormed(items)
    requires JoinPath(base, st) != [] && DirChain(fs, JoinPath(base, st))
    requires Fresh(fs, JoinPath(base, st), Names(items))
    ensures var o := Run(base, fs, stack, Lines(prefix, items));
      o.Done? && o.fs == fs + TreeMap(JoinPath(base, st), items)
      && |o.stack| >= |st| && o.stack[..|st|] == st
    decreases items, 2
  {
    var pp := JoinPath(base, st);
    if items == [] {
      assert fs + map[] == fs;
    } else {
      var e, rest := items[0], items[1..];
      var pe := pp + [e.name];
      var below := if e.Dir? then TreeMap(pe, e.children) else map[];
      FirstLine(base, fs, stack, st, prefix, items);
      var fs2, stack2 := SubtreeRun(base, fs, st, prefix, e, items);
      RunAppend(base, fs[pe := NodeOf(e)], st + [Label(e)], Sub(prefix, items), Lines(prefix, rest));
      RestFresh(fs, pp, e, items, fs2);
      RestWellFormed(items);
      RenderRun(base, fs2, stack2, st, prefix, rest);
      MapSteps(fs, pe, NodeOf(e), below, TreeMap(pp, rest));
    }
  }

  /** The lines below the first entry's own line: a directory's lines, or one blank line
      for an empty directory; none for a file. */
  function Sub(prefix: string, items: seq<Entry>): seq<string>
    requires items != []
  {
    if items[0].Dir? then Blank(Lines(prefix + Extension(|items| == 1), items[0].children)) else []
  }

  lemma LinesFirst(prefix: string, items: seq<Entry>)
    requires items != []
    ensures Lines(prefix, items)
      == [prefix + Pointer(|items| == 1) + Label(items[0])] + (Sub(prefix, items) + Lines(prefix, items[1..]))
  {
  }

  /** The first entry's own line creates it and pushes its label onto st. */
  lemma FirstLine(base: Path, fs: map<Path, Node>, stack: seq<string>, st: seq<string>,
                  prefix: string, items: seq<Entry>)
    requires items != [] && st != [] && |stack| >= |st| && stack[..|st|] == st
    requires IsIndent(prefix) && |prefix| == 4 * (|st| - 1) && WellFormed(items)
    requires JoinPath(base, st) != [] && DirChain(fs, JoinPath(base, st))
    requires Fresh(fs, JoinPath(base, st), Names(items))
    ensures var e := items[0];
      Run(base, fs, stack, Lines(prefix, items))
      == Run(base, fs[JoinPath(base, st) + [e.name] := NodeOf(e)], st + [Label(e)],
             Sub(prefix, items) + Lines(prefix, items[1..]))
  {
    var pp := JoinPath(base, st);
    var e, rest := items[0], items[1..];
    var last := |items| == 1;
    var l := Label(e);
    var line := prefix + Pointer(last) + l;
    var tail := Sub(prefix, items) + Lines(prefix, rest);
    LinesFirst(prefix, items);
    NameReadsBack(e.name);
    EntryStep(base, fs, stack, prefix, last, l);
    KeepLevel(stack, st, prefix);
    assert e.name in Names(items);
    FreshFree(fs, pp, e.name, Names(items));
    CreateEntryEffect(base, fs, st, e);
    RunCons(base, fs, stack, line, tail, Done(fs[pp + [e.name] := NodeOf(e)], st + [l]));
  }

  /** An entry line at the level of st cuts the stack back to st. */
  lemma KeepLevel(stack: seq<string>, st: seq<string>, prefix: string)
    requires st != [] && |stack| >= |st| && stack[..|st|] == st && |prefix| == 4 * (|st| - 1)
    ensures stack[..Min(|stack|, |prefix| / 4 + 1)] == st
  {
  }

  /** A fresh name is a free path. */
  lemma FreshFree(fs: map<Path, Node>, pp: Path, n: string, names: set<string>)
    requires Fresh(fs, pp, names) && n in names
    ensures pp + [n] !in fs
  {
    BelowChild(pp, n);
  }

  /** A line that goes through, followed by more. */
  lemma RunCons(base: Path, fs: map<Path, Node>, stack: seq<string>, line: string, tail: seq<string>, o: Outcome)
    requires Step(base, fs, stack, line) == o && o.Done?
    ensures Run(base, fs, stack, [line] + tail) == Run(base, o.fs, o.stack, tail)
  {
    assert ([line] + tail)[0] == line && ([line] + tail)[1..] == tail;
  }

  /** The lines below a directory entry, read after its own line, create its subtree. */
  lemma SubtreeRun(base: Path, fs: map<Path, Node>, st: seq<string>, prefix: string, e: Entry,
                   items: seq<Entry>)
    returns (fs2: map<Path, Node>, stack2: seq<string>)
    requires items != [] && e == items[0]
    requires st != [] && IsIndent(prefix) && |prefix| == 4 * (|st| - 1) && WellFormed(items)
    requires JoinPath(base, st) != [] && DirChain(fs, JoinPath(base, st))
    requires Fresh(fs, JoinPath(base, st), Names(items))
    ensures var pe := JoinPath(base, st) + [e.name];
      Run(base, fs[pe := NodeOf(e)], st + [Label(e)], Sub(prefix, items)) == Done(fs2, stack2)
      && fs2 == fs[pe := NodeOf(e)] + (if e.Dir? then TreeMap(pe, e.children) else map[])
      && |stack2| >= |st| && stack2[..|st|] == st
    decreases items, 1
  {
    var pe := JoinPath(base, st) + [e.name];
    var fs1 := fs[pe := NodeOf(e)];
    var st1 := st + [Label(e)];
    fs2, stack2 := fs1, st1;
    assert st1[..|st|] == st;
    if e.Dir? && e.children == [] {
      BlankRun(base, fs1, st1);
      assert fs1 + map[] == fs1;
    } else if e.Dir? {
      fs2, stack2 := ChildRun(base, fs, st, prefix, e, items);
    } else {
      assert fs1 + map[] == fs1;
    }
  }

  /** A directory with entries: its lines, read on the stack that ends in its label,
      create its subtree. */
  lemma ChildRun(base: Path, fs: map<Path, Node>, st: seq<string>, prefix: string, e: Entry,
                 items: seq<Entry>)
    returns (fs2: map<Path, Node>, stack2: seq<string>)
    requires items != [] && e == items[0] && e.Dir? && e.children != []
    requires st != [] && IsIndent(prefix) && |prefix| == 4 * (|st| - 1) && WellFormed(items)
    requires JoinPath(base, st) != [] && DirChain(fs, JoinPath(base, st))
    requires Fresh(fs, JoinPath(base, st), Names(items))
    ensures var pe := JoinPath(base, st) + [e.name];
      Run(base, fs[pe := Directory], st + [Label(e)], Sub(prefix, items)) == Done(fs2, stack2)
      && fs2 == fs[pe := Directory] + TreeMap(pe, e.children)
      && |stack2| >= |st| && stack2[..|st|] == st
    decreases items, 0
  {
    var pe := JoinPath(base, st) + [e.name];
    var fs1 := fs[pe := Directory];
    var st1 := st + [Label(e)];
    var cp := prefix + Extension(items[1..] == []);
    ChildReady(base, fs, st, prefix, e, items);
    RenderRun(base, fs1, st1, st1, cp, e.children);
    var o := Run(base, fs1, st1, Lines(cp, e.children));
    fs2, stack2 := o.fs, o.stack;
    assert stack2[..|st|] == stack2[..|st1|][..|st|];
  }

  /** A directory entry, once made, is ready for its own entries: its path is the join of
      the new stack, its chain exists, and nothing is below it yet. */
  lemma ChildReady(base: Path, fs: map<Path, Node>, st: seq<string>, prefix: string, e: Entry,
                   items: seq<Entry>)
    requires items != [] && e == items[0] && e.Dir? && e.children != []
    requires st != [] && IsIndent(prefix) && |prefix| == 4 * (|st| - 1) && WellFormed(items)
    requires JoinPath(base, st) != [] && DirChain(fs, JoinPath(base, st))
    requires Fresh(fs, JoinPath(base, st), Names(items))
    ensures var pe, st1 := JoinPath(base, st) + [e.name], st + [Label(e)];
      var fs1, cp := fs[pe := Directory], prefix + Extension(items[1..] == []);
      st1[..|st1|] == st1 && IsIndent(cp) && |cp| == 4 * (|st1| - 1) && WellFormed(e.children)
      && JoinPath(base, st1) == pe && pe != [] && DirChain(fs1, pe) && Fresh(fs1, pe, Names(e.children))
  {
    var pp, l := JoinPath(base, st), Label(e);
    var st1 := st + [l];
    assert st1[..|st1|] == st1;
    assert e.name in Names(items);
    IndentExtend(prefix, items[1..] == []);
    JoinPush(base, st, e);
    ChainExtend(fs, pp, e.name);
    NothingBelowNew(fs, pp, e.name, Names(items), Directory);
  }

  /** The children's indentation is indentation one block deeper. */
  lemma IndentExtend(prefix: string, last: bool)
    requires IsIndent(prefix)
    ensures IsIndent(prefix + Extension(last)) && |prefix + Extension(last)| == |prefix| + 4
  {
    var cp := prefix + Extension(last);
    assert forall i :: 0 <= i < |cp| ==> cp[i] == '│' || cp[i] == ' ';
  }

  /** Pushing an entry's label extends the joined path by the entry's name. */
  lemma JoinPush(base: Path, st: seq<string>, e: Entry)
    requires ValidName(e.name)
    ensures JoinPath(base, st + [Label(e)]) == JoinPath(base, st) + [e.name]
  {
    ComponentsOfName(e.name);
    assert (st + [Label(e)])[..|st|] == st;
  }

  /** A top-level directory label joins onto base as one component. */
  lemma RootJoin(base: Path, n: string)
    requires ValidName(n)
    ensures JoinPath(base, [n + "/"]) == base + [n]
  {
    var none: seq<string> := [];
    JoinPush(base, none, Entry.Dir(n, []));
    assert none + [Label(Entry.Dir(n, []))] == [n + "/"];
  }

  /** A directory added below a directory chain extends the chain. */
  lemma ChainExtend(fs: map<Path, Node>, pp: Path, n: string)
    requires DirChain(fs, pp)
    ensures DirChain(fs[pp + [n] := Directory], pp + [n])
  {
    var pe := pp + [n];
    forall k | 1 <= k <= |pe| ensures pe[..k] in fs[pe := Directory] && fs[pe := Directory][pe[..k]] == Directory {
      if k <= |pp| {
        assert pe[..k] == pp[..k] && |pe[..k]| < |pe|;
      } else {
        assert pe[..k] == pe;
      }
    }
  }

  /** A name that nothing in fs starts with below pp: once pp + [n] is added, nothing is
      below it. */
  lemma NothingBelowNew(fs: map<Path, Node>, pp: Path, n: string, names: set<string>, v: Node)
    requires Fresh(fs, pp, names) && n in names
    ensures forall q :: q in fs[pp + [n] := v] ==> !Below(q, pp + [n])
  {
    forall q | q in fs[pp + [n] := v] ensures !Below(q, pp + [n]) {
      BelowStep(q, pp, n);
    }
  }

  lemma BelowStep(q: Path, pp: Path, n: string)
    ensures Below(q, pp + [n]) ==> Below(q, pp) && q[|pp|] == n
  {
    if Below(q, pp + [n]) {
      assert q[..|pp|] == q[..|pp| + 1][..|pp|] && q[|pp|] == q[..|pp| + 1][|pp|];
    }
  }

  /** After the first entry, the later siblings still find their names free. */
  lemma RestFresh(fs: map<Path, Node>, pp: Path, e: Entry, items: seq<Entry>, fs2: map<Path, Node>)
    requires items != [] && e == items[0] && WellFormed(items) && Fresh(fs, pp, Names(items))
    requires DirChain(fs, pp)
    requires fs2 == fs[pp + [e.name] := NodeOf(e)] + (if e.Dir? then TreeMap(pp + [e.name], e.children) else map[])
    ensures Fresh(fs2, pp, Names(items[1..])) && DirChain(fs2, pp)
  {
    var pe := pp + [e.name];
    var below := if e.Dir? then TreeMap(pe, e.children) else map[];
    RestNames(items);
    BelowChild(pp, e.name);
    if e.Dir? {
      SubtreeUnder(pp, e.name, e.children);
    }
    forall q | q in fs2 && Below(q, pp) ensures q[|pp|] !in Names(items[1..]) {
      if q !in fs && q != pe {
        assert q in below;
      }
    }
    forall k | 1 <= k <= |pp| ensures pp[..k] in fs2 && fs2[pp[..k]] == Directory {
      assert !Below(pp[..k], pp);
      assert pp[..k] != pe;
    }
  }

  /** The later siblings' names are among the names, without the first one's. */
  lemma RestNames(items: seq<Entry>)
    requires items != [] && WellFormed(items)
    ensures items[0].name !in Names(items[1..]) && Names(items[1..]) <= Names(items)
  {
    var r := items[1..];
    forall k | 0 <= k < |r| ensures r[k].name != items[0].name && r[k].name in Names(items) {
      assert r[k] == items[k + 1];
    }
  }

  /** A subtree made at pp + [n] lies below pp, under n. */
  lemma SubtreeUnder(pp: Path, n: string, cs: seq<Entry>)
    ensures forall q :: q in TreeMap(pp + [n], cs) ==> Below(q, pp) && q[|pp|] == n
  {
    TreeMapBelow(pp + [n], cs);
    forall q | q in TreeMap(pp + [n], cs) ensures Below(q, pp) && q[|pp|] == n {
      BelowStep(q, pp, n);
    }
  }

  lemma RestWellFormed(items: seq<Entry>)
    requires items != [] && WellFormed(items)
    ensures WellFormed(items[1..])
  {
    var r := items[1..];
    assert forall k :: 0 <= k < |r| ==> r[k] == items[k + 1];
  }

  /** Adding one entry, then its subtree, then the rest, is adding them all at once. */
  lemma MapSteps(fs: map<Path, Node>, x: Path, v: Node, t1: map<Path, Node>, t2: map<Path, Node>)
    ensures (fs[x := v] + t1) + t2 == fs + ((map[x := v] + t1) + t2)
  {
  }

  // ----- the round trip -----

  /** The root label line makes the root directory and its ancestors, unless it exists. */
  lemma RootLineRun(base: Path, fs: map<Path, Node>, root: string)
    requires ValidName(root) && Consistent(fs) && !FileOnPath(fs, base + [root])
    ensures Step(base, fs, [], root + "/") == Done(fs + Ancestry(base + [root]), [root + "/"])
  {
    var r := base + [root];
    var l := root + "/";
    NameReadsBack(root);
    RootStep(base, fs, l);
    RootJoin(base, root);
    assert l[|l| - 1] == '/';
    if r in fs {
      assert r[..|r|] == r;
      forall q | q in Prefixes(r) ensures q in fs && fs[q] == Directory {
        var k :| 1 <= k <= |r| && q == r[..k];
        if k < |r| {
          assert r[..k] in fs && fs[r[..k]].Directory?;
        }
      }
      assert fs + Ancestry(r) == fs;
    }
  }

  /** Parsing a root label line followed by a tree's listing-order lines makes the
      root and exactly the tree's entries below it: each directory and each file, empty. */
  lemma TreeRoundTrip(base: Path, fs: map<Path, Node>, root: string, tree: seq<Entry>)
    requires ValidName(root) && WellFormed(tree)
    requires Consistent(fs) && !FileOnPath(fs, base + [root]) && Fresh(fs, base + [root], Names(tree))
    ensures var o := Run(base, fs, [], [root + "/"] + Lines("", tree));
      o.Done? && o.fs == fs + Ancestry(base + [root]) + TreeMap(base + [root], tree)
  {
    var r := base + [root];
    var l := root + "/";
    var fs1 := fs + Ancestry(r);
    RootLineRun(base, fs, root);
    RunCons(base, fs, [], l, Lines("", tree), Done(fs1, [l]));
    RootJoin(base, root);
    AncestryFacts(fs, r);
    forall q | q in fs1 && Below(q, r) ensures q[|r|] !in Names(tree) {
      assert q !in Prefixes(r);
    }
    assert [l][..|[l]|] == [l];
    RenderRun(base, fs1, [l], [l], "", tree);
  }

  /** The same round trip on the text: the root label line, a newline, and the
      serializer's output for a tree listed in sorted order, split into lines. */
  lemma OrderedTextRoundTrip(base: Path, fs: map<Path, Node>, root: string, tree: seq<Entry>)
    requires ValidName(root) && WellFormed(tree) && Ordered(tree)
    requires Consistent(fs) && !FileOnPath(fs, base + [root]) && Fresh(fs, base + [root], Names(tree))
    ensures var o := Run(base, fs, [], Split(root + "/\n" + Generate("", tree), '\n'));
      o.Done? && o.fs == fs + Ancestry(base + [root]) + TreeMap(base + [root], tree)
  {
    var l := root + "/";
    var ls := Lines("", tree);
    GenerateLines("", tree);
    RootNoNewline(root);
    LinesNoNewline("", tree);
    var g := Generate("", tree);
    RootText(root, g);
    SplitRoot(l, ls);
    TreeRoundTrip(base, fs, root, tree);
    if ls == [] {
      var o := Run(base, fs, [], [l] + ls);
      RunAppend(base, fs, [], [l] + ls, [[]]);
      BlankRun(base, o.fs, o.stack);
    }
  }

  lemma RootText(root: string, g: string)
    ensures root + "/\n" + g == (root + "/") + "\n" + g
  {
  }

  lemma RootNoNewline(root: string)
    requires ValidName(root)
    ensures '\n' !in root + "/"
  {
    assert forall c :: c in root + "/" ==> c in root || c == '/';
  }

  /** Splitting a first line, a newline and joined lines gives the lines back; no lines
      join to the empty text, which splits into one empty line. */
  lemma SplitRoot(l: string, ls: seq<string>)
    requires '\n' !in l && forall k :: 0 <= k < |ls| ==> '\n' !in ls[k]
    ensures Split(l + "\n" + Join(ls, '\n'), '\n') == if ls == [] then ([l] + ls) + [[]] else [l] + ls
  {
    assert l + "\n" + Join(ls, '\n') == l + ['\n'] + Join(ls, '\n');
    SplitCons(l, Join(ls, '\n'), '\n');
    if ls != [] {
      SplitJoin(ls, '\n');
    } else {
      assert Join(ls, '\n') == [];
      IndexOfAbsent([], '\n');
      assert Split([], '\n') == [[]];
      assert [l] + ls == [l];
    }
  }

  /** No serialized line holds a line break. */
  lemma {:induction false} LinesNoNewline(prefix: string, items: seq<Entry>)
    requires IsIndent(prefix) && WellFormed(items)
    ensures forall k :: 0 <= k < |Lines(prefix, items)| ==> '\n' !in Lines(prefix, items)[k]
    decreases items
  {
    if items != [] {
      var e := items[0];
      var last := |items| == 1;
      LinesFirst(prefix, items);
      RestWellFormed(items);
      LinesNoNewline(prefix, items[1..]);
      assert ValidName(e.name);
      EntryLineNoNewline(prefix, last, e);
      if e.Dir? {
        IndentExtend(prefix, last);
        LinesNoNewline(prefix + Extension(last), e.children);
      }
      NoNewlineCons(prefix + Pointer(last) + Label(e), Sub(prefix, items), Lines(prefix, items[1..]));
    }
  }

  lemma EntryLineNoNewline(prefix: string, last: bool, e: Entry)
    requires IsIndent(prefix) && ValidName(e.name)
    ensures '\n' !in prefix + Pointer(last) + Label(e)
  {
    var line := prefix + Pointer(last) + Label(e);
    assert forall c :: c in line ==> c in prefix || c in Pointer(last) || c in e.name || c == '/';
  }

  lemma NoNewlineCons(line: string, sub: seq<string>, rest: seq<string>)
    requires '\n' !in line
    requires forall k :: 0 <= k < |sub| ==> '\n' !in sub[k]
    requires forall k :: 0 <= k < |rest| ==> '\n' !in rest[k]
    ensures forall k :: 0 <= k < |[line] + (sub + rest)| ==> '\n' !in ([line] + (sub + rest))[k]
  {
    var all := [line] + (sub + rest);
    forall k | 0 <= k < |all| ensures '\n' !in all[k] {
      if k == 0 {
      } else if k - 1 < |sub| {
        assert all[k] == sub[k - 1];
      } else {
        assert all[k] == rest[k - 1 - |sub|];
      }
    }
  }

  // ----- without a root line -----

  /** Without a root line the top-level entries are nested: a directory entry read at
      depth 1 on an empty stack is not popped by the next entry at depth 1, so a file
      listed after it is made inside it rather than beside it. */
  lemma SiblingsNest(base: Path, fs: map<Path, Node>, dir: string, file: string)
    requires ValidName(dir) && ValidName(file) && '.' in file && dir != file
    requires Consistent(fs) && !FileOnPath(fs, base + [dir])
    requires forall q :: q in fs ==> !Below(q, base + [dir])
    ensures var o := Run(base, fs, [], Lines("", [Entry.Dir(dir, []), Entry.File(file)]));
      o.Done? && o.fs == (fs + Ancestry(base + [dir]))[base + [dir, file] := Node.File([])]
      && (base + [file] in o.fs ==> base + [file] in fs)
  {
    var d := dir + "/";
    var r := base + [dir];
    var fs1 := fs + Ancestry(r);
    var fs2 := fs1[r + [file] := Node.File([])];
    NestLines(dir, file);
    NestFirst(base, fs, dir);
    AncestryFacts(fs, r);
    BelowChild(r, file);
    assert r + [file] == base + [dir, file];
    NestSecond(base, fs1, dir, file);
    ThreeLines(base, fs, Pointer(false) + dir + "/", [], Pointer(true) + file, fs1, [d], fs2, [d, file]);
    NotOnChain(base, dir, file);
  }

  /** Three lines, the middle one blank. */
  lemma ThreeLines(base: Path, fs: map<Path, Node>, a: string, b: string, c: string,
                   fs1: map<Path, Node>, s1: seq<string>, fs2: map<Path, Node>, s2: seq<string>)
    requires Step(base, fs, [], a) == Done(fs1, s1) && Strip(b) == []
    requires Step(base, fs1, s1, c) == Done(fs2, s2)
    ensures Run(base, fs, [], [a, b, c]) == Done(fs2, s2)
  {
    assert [a, b, c] == [a] + [b, c];
    RunCons(base, fs, [], a, [b, c], Done(fs1, s1));
    BlankThenOne(base, fs1, s1, b, c, Done(fs2, s2));
  }

  /** A blank line, then one line. */
  lemma BlankThenOne(base: Path, fs: map<Path, Node>, stack: seq<string>, b: string, c: string, o: Outcome)
    requires Strip(b) == [] && Step(base, fs, stack, c) == o && o.Done?
    ensures Run(base, fs, stack, [b, c]) == o
  {
    var none: seq<string> := [];
    assert [b, c] == [b] + [c] && [c] == [c] + none;
    RunCons(base, fs, stack, b, [c], Done(fs, stack));
    RunCons(base, fs, stack, c, none, o);
  }

  lemma NestLines(dir: string, file: string)
    ensures Lines("", [Entry.Dir(dir, []), Entry.File(file)]) == [Pointer(false) + dir + "/", [], Pointer(true) + file]
  {
    var items := [Entry.Dir(dir, []), Entry.File(file)];
    var none: seq<Entry> := [];
    var rest := items[1..];
    assert rest == [Entry.File(file)] && rest[1..] == none;
    LinesFirst("", items);
    LinesFirst("", rest);
    assert Lines(Extension(false), none) == [] && Lines("", none) == [];
    assert Sub("", items) == [[]];
    assert Sub("", rest) == [];
    assert "" + Pointer(false) + Label(items[0]) == Pointer(false) + dir + "/";
    assert "" + Pointer(true) + Label(rest[0]) == Pointer(true) + file;
  }

  /** The directory line on the empty stack. */
  lemma NestFirst(base: Path, fs: map<Path, Node>, dir: string)
    requires ValidName(dir) && Consistent(fs) && !FileOnPath(fs, base + [dir])
    ensures Step(base, fs, [], Pointer(false) + dir + "/") == Done(fs + Ancestry(base + [dir]), [dir + "/"])
  {
    var d := dir + "/";
    NameReadsBack(dir);
    EntryStep(base, fs, [], "", false, d);
    assert [] + [d] == [d];
    assert "" + Pointer(false) + d == Pointer(false) + dir + "/";
    RootLineRun(base, fs, dir);
    RootStep(base, fs, d);
  }

  /** os.makedirs leaves p a directory chain and adds nothing below p. */
  lemma AncestryFacts(fs: map<Path, Node>, p: Path)
    ensures DirChain(fs + Ancestry(p), p)
    ensures forall q :: Below(q, p) && q in fs + Ancestry(p) ==> q in fs
  {
    forall k | 1 <= k <= |p| ensures p[..k] in fs + Ancestry(p) && (fs + Ancestry(p))[p[..k]] == Directory {
      assert p[..k] in Prefixes(p);
    }
    forall q | Below(q, p) && q in fs + Ancestry(p) ensures q in fs {
      assert q !in Prefixes(p);
    }
  }

  lemma BelowChild(p: Path, n: string)
    ensures Below(p + [n], p) && (p + [n])[|p|] == n
  {
    assert (p + [n])[..|p|] == p;
  }

  /** The file line at depth 1 keeps the directory on the stack and lands inside it. */
  lemma NestSecond(base: Path, fs1: map<Path, Node>, dir: string, file: string)
    requires ValidName(dir) && ValidName(file) && '.' in file
    requires DirChain(fs1, base + [dir]) && base + [dir, file] !in fs1
    ensures Step(base, fs1, [dir + "/"], Pointer(true) + file)
      == Done(fs1[base + [dir, file] := Node.File([])], [dir + "/", file])
  {
    var one: seq<string> := [dir + "/"];
    NameReadsBack(file);
    EntryStep(base, fs1, one, "", true, file);
    assert one[..Min(1, 1)] == one;
    assert "" + Pointer(true) + file == Pointer(true) + file;
    NestCreate(base, fs1, dir, file);
  }

  lemma NestCreate(base: Path, fs1: map<Path, Node>, dir: string, file: string)
    requires ValidName(dir) && ValidName(file) && '.' in file
    requires DirChain(fs1, base + [dir]) && base + [dir, file] !in fs1
    ensures Create(base, fs1, [dir + "/"] + [file])
      == Done(fs1[base + [dir, file] := Node.File([])], [dir + "/", file])
  {
    var one: seq<string> := [dir + "/"];
    RootJoin(base, dir);
    assert base + [dir] + [file] == base + [dir, file];
    FileEntry(base, fs1, one, file);
  }

  lemma FileEntry(base: Path, fs: map<Path, Node>, st: seq<string>, file: string)
    requires st != [] && JoinPath(base, st) != [] && DirChain(fs, JoinPath(base, st))
    requires ValidName(file) && '.' in file && JoinPath(base, st) + [file] !in fs
    ensures Create(base, fs, st + [file]) == Done(fs[JoinPath(base, st) + [file] := Node.File([])], st + [file])
  {
    var pp := JoinPath(base, st);
    var st2 := st + [file];
    assert Label(Entry.File(file)) == file;
    JoinPush(base, st, Entry.File(file));
    assert st2[|st2| - 1] == file && file[|file| - 1] != '/';
    FileCreate(base, fs, st2, pp, file);
  }

  /** base + [file] is neither the directory's path nor one of its ancestors. */
  lemma NotOnChain(base: Path, dir: string, file: string)
    requires dir != file
    ensures base + [file] !in Prefixes(base + [dir]) && base + [file] != base + [dir, file]
  {
    var r := base + [dir];
    forall k | 1 <= k <= |r| ensures r[..k] != base + [file] {
      if k == |r| {
        assert r[..k][|base|] == dir;
        assert (base + [file])[|base|] == file;
      }
    }
  }
}
