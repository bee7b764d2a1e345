/** Properties of the tree-text builder: how one line moves the stack, what it creates,
    that a line ending left by readlines() changes nothing, and that processing the same
    text twice leaves the filesystem as the first run left it. */
module BuilderFacts {
  import opened Text
  import opened FileSystem
  import opened Builder

  /** A blank line (empty or all whitespace) changes neither the filesystem nor the stack. */
  lemma BlankLineSkipped(base: Path, fs: map<Path, Node>, stack: seq<string>, line: string)
    requires AllSpace(line)
    ensures Step(base, fs, stack, line) == Done(fs, stack)
  {
    StripFacts(line);
  }

  /** The stack after a line: the old stack cut to min(its length, the depth), never padded,
      with the label pushed when the line has one. */
  lemma StepStack(base: Path, fs: map<Path, Node>, stack: seq<string>, line: string)
    requires !AllSpace(line) && Step(base, fs, stack, line).Done?
    ensures var s := Step(base, fs, stack, line).stack;
      var k := Min(|stack|, Depth(line));
      s[..k] == stack[..k]
      && |s| == k + (if Clean(line) == [] then 0 else 1)
      && (Clean(line) != [] ==> s[k] == Clean(line))
  {
    StripFacts(line);
  }

  /** A line made only of the drawing: whole "├──" and "└──" connectors (while tee and
      corner allow them), vertical bars and whitespace. */
  predicate Drawing(s: string, tee: bool, corner: bool)
    decreases |s|
  {
    if s == [] then true
    else if tee && |s| >= 3 && s[..3] == Tee then Drawing(s[3..], tee, corner)
    else if corner && |s| >= 3 && s[..3] == Corner then Drawing(s[3..], tee, corner)
    else (s[0] == '│' || IsSpace(s[0])) && Drawing(s[1..], tee, corner)
  }

  /** A line of drawing alone, such as "│   └── ", has no label: it cuts the stack to
      its depth and creates nothing. */
  lemma DrawingOnlyLine(base: Path, fs: map<Path, Node>, stack: seq<string>, line: string)
    requires Drawing(line, true, true)
    ensures Clean(line) == []
    ensures !AllSpace(line) ==> Step(base, fs, stack, line) == Done(fs, stack[..Min(|stack|, Depth(line))])
  {
    TeesRemoved(line);
    var r1 := Remove(line, Tee);
    CornersRemoved(r1);
    var r2 := Remove(r1, Corner);
    BarsAndSpaces(r2);
    var r := Remove(r2, Bar);
    RemoveFacts(r2, Bar);
    assert Bar[0] == '│';
    assert forall i :: 0 <= i < |r| ==> r[i] in r2 && r[i] != '│';
    assert AllSpace(r);
    StripFacts(line);
    StripFacts(r);
  }

  /** Deleting "├──" from a line of drawing leaves drawing without tees. */
  lemma {:induction false} TeesRemoved(s: string)
    requires Drawing(s, true, true)
    ensures Drawing(Remove(s, Tee), false, true)
    decreases |s|
  {
    assert Tee[0] == '├' && Corner[0] == '└';
    if s == [] {
    } else if |s| >= 3 && s[..3] == Tee {
      assert s == Tee + s[3..];
      RemoveAtFront(s[3..], Tee);
      TeesRemoved(s[3..]);
    } else if |s| >= 3 && s[..3] == Corner {
      var t := s[3..];
      assert s == Corner + t;
      CornerKept(t);
      TeesRemoved(t);
      var r := Remove(t, Tee);
      assert (Corner + r)[..3] == Corner && (Corner + r)[3..] == r;
    } else {
      assert s == [s[0]] + s[1..];
      RemoveKeepsFirst(s[0], s[1..], Tee);
      TeesRemoved(s[1..]);
      var r := Remove(s, Tee);
      assert r[1..] == Remove(s[1..], Tee);
      assert |r| >= 3 ==> r[..3][0] == s[0];
    }
  }

  /** A "└──" connector is left whole when tees are deleted. */
  lemma CornerKept(t: string)
    ensures Remove(Corner + t, Tee) == Corner + Remove(t, Tee)
  {
    assert Tee[0] == '├';
    assert Corner + t == ['└'] + (['─'] + (['─'] + t));
    RemoveKeepsFirst('─', t, Tee);
    RemoveKeepsFirst('─', ['─'] + t, Tee);
    RemoveKeepsFirst('└', ['─'] + (['─'] + t), Tee);
    assert ['└'] + (['─'] + (['─'] + Remove(t, Tee))) == Corner + Remove(t, Tee);
  }

  /** Deleting "└──" from drawing without tees leaves only bars and whitespace. */
  lemma {:induction false} CornersRemoved(s: string)
    requires Drawing(s, false, true)
    ensures Drawing(Remove(s, Corner), false, false)
    decreases |s|
  {
    assert Corner[0] == '└';
    if s == [] {
    } else if |s| >= 3 && s[..3] == Corner {
      assert s == Corner + s[3..];
      RemoveAtFront(s[3..], Corner);
      CornersRemoved(s[3..]);
    } else {
      assert s == [s[0]] + s[1..];
      RemoveKeepsFirst(s[0], s[1..], Corner);
      CornersRemoved(s[1..]);
      assert Remove(s, Corner)[1..] == Remove(s[1..], Corner);
    }
  }

  /** Drawing without connectors is bars and whitespace, character by character. */
  lemma {:induction false} BarsAndSpaces(s: string)
    requires Drawing(s, false, false)
    ensures forall i :: 0 <= i < |s| ==> s[i] == '│' || IsSpace(s[i])
    decreases |s|
  {
    if s != [] {
      BarsAndSpaces(s[1..]);
      assert forall i :: 1 <= i < |s| ==> s[i] == s[1..][i - 1];
    }
  }

  /** A line ending ('\n', as readlines() keeps it) changes nothing about a line. */
  lemma LineEnding(base: Path, fs: map<Path, Node>, stack: seq<string>, line: string)
    ensures Step(base, fs, stack, line + "\n") == Step(base, fs, stack, line)
  {
    var l := line + "\n";
    assert IsSpace('\n') && !IsGlyph('\n');
    StripSnocSpace(line, '\n');
    LeadRunSnoc(line, '\n');
    RemoveSnoc(line, '\n', Tee);
    var r1 := Remove(line, Tee);
    RemoveSnoc(r1, '\n', Corner);
    var r2 := Remove(r1, Corner);
    RemoveSnoc(r2, '\n', Bar);
    StripSnocSpace(Remove(r2, Bar), '\n');
    assert Clean(l) == Clean(line);
    assert Depth(l) == Depth(line);
  }

  /** The lines of readlines() and of split('\n') drive the builder to the same outcome. */
  lemma {:induction false} ReadLinesAsSplit(base: Path, fs: map<Path, Node>, stack: seq<string>, s: string)
    ensures Run(base, fs, stack, ReadLines(s)) == Run(base, fs, stack, Split(s, '\n'))
    decreases |s|
  {
    var i := IndexOf(s, '\n');
    if s == [] {
      RunFirst(base, fs, stack, Split(s, '\n'));
      assert Split(s, '\n') == [s];
    } else if i < |s| {
      var a, rest := s[..i], s[i + 1..];
      SliceAround(s, i);
      assert s == a + "\n" + rest;
      var o := Step(base, fs, stack, a);
      if o.Done? {
        ReadLinesAsSplit(base, o.fs, o.stack, rest);
      }
      ReadLinesAsSplitCons(base, fs, stack, a, rest);
    } else {
      ReadLinesLast(s);
    }
  }

  /** The step of ReadLinesAsSplit: the first line read with and without its '\n'. */
  lemma ReadLinesAsSplitCons(base: Path, fs: map<Path, Node>, stack: seq<string>, a: string, rest: string)
    requires '\n' !in a
    requires var o := Step(base, fs, stack, a);
      o.Done? ==> Run(base, o.fs, o.stack, ReadLines(rest)) == Run(base, o.fs, o.stack, Split(rest, '\n'))
    ensures Run(base, fs, stack, ReadLines(a + "\n" + rest)) == Run(base, fs, stack, Split(a + "\n" + rest, '\n'))
  {
    ReadLinesCons(a, rest);
    SplitCons(a, rest, '\n');
    assert a + ['\n'] + rest == a + "\n" + rest;
    LineEnding(base, fs, stack, a);
    RunFirst(base, fs, stack, [a + "\n"] + ReadLines(rest));
    RunFirst(base, fs, stack, [a] + Split(rest, '\n'));
    assert ([a + "\n"] + ReadLines(rest))[1..] == ReadLines(rest);
    assert ([a] + Split(rest, '\n'))[1..] == Split(rest, '\n');
  }

  // ----- what a created entry leaves behind -----

  /** A file line that went through, on a real tree: the file is present and empty, every
      proper ancestor is a directory, no other entry changed, only the path and its
      ancestors were added, and the tree is still a real tree. */
  lemma NewFileEffect(fs: map<Path, Node>, p: Path)
    requires Consistent(fs) && NewFile(fs, p).ok
    ensures var r := NewFile(fs, p).fs;
      Consistent(r) && p in r && r[p] == File([])
      && (forall k :: 1 <= k < |p| ==> r[p[..k]] == Directory)
      && (forall q :: q in fs && q != p ==> r[q] == fs[q])
      && fs.Keys <= r.Keys && r.Keys <= fs.Keys + Prefixes(p)
  {
    var parent := DirName(p);
    var made := if parent != [] && parent !in fs then MakeDirsSpec(fs, parent) else Success(fs);
    MakeDirsFacts(fs, parent);
    WriteFacts(made.value, p, []);
    var r := NewFile(fs, p).fs;
    assert p[..|p|] == p;
    assert Prefixes(parent) <= Prefixes(p) by {
      forall q | q in Prefixes(parent) ensures q in Prefixes(p) {
        var k :| 1 <= k <= |parent| && q == parent[..k];
        assert q == p[..k];
      }
    }
    forall k | 1 <= k < |p| ensures r[p[..k]] == Directory {
      assert p[..k] == parent[..k];
      if k < |parent| {
        assert parent[..k][..k] == parent[..k];
      } else {
        assert parent[..k] == parent;
      }
      assert p[..k] in made.value && made.value[p[..k]].Directory?;
    }
  }

  /** A file line raises, on a real tree, exactly when the path is empty, is a directory,
      or has a file on its parent chain. */
  lemma NewFileFails(fs: map<Path, Node>, p: Path)
    requires Consistent(fs)
    ensures !NewFile(fs, p).ok <==> p == [] || (p in fs && fs[p].Directory?) || FileOnPath(fs, DirName(p))
  {
    var parent := DirName(p);
    MakeDirsFacts(fs, parent);
    if parent != [] && parent !in fs && !FileOnPath(fs, parent) {
      WriteFacts(MakeDirsSpec(fs, parent).value, p, []);
      assert parent[..|parent|] == parent;
    } else {
      WriteFacts(fs, p, []);
      if parent != [] && parent in fs {
        if fs[parent].Directory? {
          forall k | 1 <= k <= |parent| ensures !(parent[..k] in fs && fs[parent[..k]].File?) {
            if k == |parent| {
              assert parent[..k] == parent;
            }
          }
        }
        assert parent[..|parent|] == parent;
      }
    }
  }

  /** A directory line that went through: the path is present, an existing entry is left
      as it was, a new one is a directory with directories above it; nothing else
      changed and the tree is still a real tree. */
  lemma NewDirEffect(fs: map<Path, Node>, p: Path)
    requires Consistent(fs) && NewDir(fs, p).ok
    ensures var r := NewDir(fs, p).fs;
      Consistent(r) && p in r
      && (p in fs ==> r == fs)
      && (p !in fs ==> forall k :: 1 <= k <= |p| ==> r[p[..k]] == Directory)
      && (forall q :: q in fs ==> r[q] == fs[q])
      && fs.Keys <= r.Keys && r.Keys <= fs.Keys + Prefixes(p)
  {
    MakeDirsFacts(fs, p);
    assert p[..|p|] == p;
  }

  /** A directory line raises exactly when the path is missing and is empty or has a
      file on it. */
  lemma NewDirFails(fs: map<Path, Node>, p: Path)
    ensures !NewDir(fs, p).ok <==> p !in fs && (p == [] || FileOnPath(fs, p))
  {
    MakeDirsFacts(fs, p);
  }

  /** The entry a labelled line creates, on a real tree: a label with a '.' and no
      trailing '/' leaves an empty file at its path; any other label leaves a new
      directory there, or leaves an existing entry and everything else untouched. */
  lemma CreateKind(base: Path, fs: map<Path, Node>, st: seq<string>)
    requires Consistent(fs) && st != [] && Create(base, fs, st).Done?
    ensures var p, r := JoinPath(base, st), Create(base, fs, st).fs;
      Consistent(r) && p in r
      && (IsFile(st[|st| - 1]) ==> r[p] == File([]))
      && (!IsFile(st[|st| - 1]) && p !in fs ==> r[p] == Directory)
      && (!IsFile(st[|st| - 1]) && p in fs ==> r == fs)
  {
    var p := JoinPath(base, st);
    if IsFile(st[|st| - 1]) {
      NewFileEffect(fs, p);
    } else {
      NewDirEffect(fs, p);
      if p !in fs {
        assert p != [] by { NewDirFails(fs, p); }
        assert p[..|p|] == p;
      }
    }
  }

  // ----- running the same text again -----

  /** b extends a: every entry of a is still there with its kind, and an empty file
      stays an empty file. */
  predicate Grows(a: map<Path, Node>, b: map<Path, Node>) {
    forall q :: q in a ==> q in b && b[q].Directory? == a[q].Directory? && (a[q] == File([]) ==> b[q] == File([]))
  }

  lemma GrowsTrans(a: map<Path, Node>, b: map<Path, Node>, c: map<Path, Node>)
    requires Grows(a, b) && Grows(b, c)
    ensures Grows(a, c)
  {
  }

  lemma NewFileGrows(fs: map<Path, Node>, p: Path)
    ensures Grows(fs, NewFile(fs, p).fs)
  {
    var parent := DirName(p);
    var made := if parent != [] && parent !in fs then MakeDirsSpec(fs, parent) else Success(fs);
    MakeDirsFacts(fs, parent);
    if made.Success? {
      WriteFacts(made.value, p, []);
      var w := WriteSpec(made.value, p, []);
      if w.Success? {
        GrowsTrans(fs, made.value, w.value);
      }
    }
  }

  lemma NewDirGrows(fs: map<Path, Node>, p: Path)
    ensures Grows(fs, NewDir(fs, p).fs)
  {
    MakeDirsFacts(fs, p);
  }

  lemma CreateGrows(base: Path, fs: map<Path, Node>, st: seq<string>)
    requires st != []
    ensures Grows(fs, Create(base, fs, st).fs)
  {
    NewFileGrows(fs, JoinPath(base, st));
    NewDirGrows(fs, JoinPath(base, st));
  }

  /** A line never removes an entry, never turns a file into a directory or back, and
      never refills an emptied file, even when it raises. */
  lemma StepGrows(base: Path, fs: map<Path, Node>, stack: seq<string>, line: string)
    ensures Grows(fs, Step(base, fs, stack, line).fs)
  {
    if Strip(line) != [] && Clean(line) != [] {
      CreateGrows(base, fs, stack[..Min(|stack|, Depth(line))] + [Clean(line)]);
    }
  }

  lemma {:induction false} RunGrows(base: Path, fs: map<Path, Node>, stack: seq<string>, lines: seq<string>)
    ensures Grows(fs, Run(base, fs, stack, lines).fs)
    decreases |lines|
  {
    if lines != [] {
      RunFirst(base, fs, stack, lines);
      var o := Step(base, fs, stack, lines[0]);
      StepGrows(base, fs, stack, lines[0]);
      if o.Done? {
        RunGrows(base, o.fs, o.stack, lines[1..]);
        GrowsTrans(fs, o.fs, Run(base, o.fs, o.stack, lines[1..]).fs);
      }
    }
  }

  /** A file that was created is, on any later filesystem that kept it, created again
      without any change. */
  lemma NewFileAgain(fs: map<Path, Node>, p: Path, later: map<Path, Node>)
    requires NewFile(fs, p).ok && Grows(NewFile(fs, p).fs, later)
    ensures NewFile(later, p) == Effect(true, later)
  {
    var parent := DirName(p);
    var made := if parent != [] && parent !in fs then MakeDirsSpec(fs, parent) else Success(fs);
    MakeDirsFacts(fs, parent);
    WriteFacts(made.value, p, []);
    WriteFacts(later, p, []);
    assert later[p] == File([]);
    assert later[p := File([])] == later;
  }

  lemma NewDirAgain(fs: map<Path, Node>, p: Path, later: map<Path, Node>)
    requires NewDir(fs, p).ok && Grows(NewDir(fs, p).fs, later)
    ensures NewDir(later, p) == Effect(true, later)
  {
    MakeDirsFacts(fs, p);
    assert p[..|p|] == p;
  }

  lemma CreateAgain(base: Path, fs: map<Path, Node>, st: seq<string>, later: map<Path, Node>)
    requires st != [] && Create(base, fs, st).Done? && Grows(Create(base, fs, st).fs, later)
    ensures Create(base, later, st) == Done(later, st)
  {
    if IsFile(st[|st| - 1]) {
      NewFileAgain(fs, JoinPath(base, st), later);
    } else {
      NewDirAgain(fs, JoinPath(base, st), later);
    }
  }

  /** A line that went through leaves entries that make the same line a no-op on any
      later filesystem, with the same stack. */
  lemma StepAgain(base: Path, fs: map<Path, Node>, stack: seq<string>, line: string, later: map<Path, Node>)
    requires Step(base, fs, stack, line).Done? && Grows(Step(base, fs, stack, line).fs, later)
    ensures Step(base, later, stack, line) == Done(later, Step(base, fs, stack, line).stack)
  {
    if Strip(line) != [] && Clean(line) != [] {
      CreateAgain(base, fs, stack[..Min(|stack|, Depth(line))] + [Clean(line)], later);
    }
  }

  lemma {:induction false} RunAgain(base: Path, fs: map<Path, Node>, stack: seq<string>, lines: seq<string>, later: map<Path, Node>)
    requires Run(base, fs, stack, lines).Done? && Grows(Run(base, fs, stack, lines).fs, later)
    ensures Run(base, later, stack, lines) == Done(later, Run(base, fs, stack, lines).stack)
    decreases |lines|
  {
    if lines != [] {
      RunFirst(base, fs, stack, lines);
      RunFirst(base, later, stack, lines);
      var o := Step(base, fs, stack, lines[0]);
      RunGrows(base, o.fs, o.stack, lines[1..]);
      GrowsTrans(o.fs, Run(base, o.fs, o.stack, lines[1..]).fs, later);
      StepAgain(base, fs, stack, lines[0], later);
      RunAgain(base, o.fs, o.stack, lines[1..], later);
    }
  }

  /** Idempotence: building the same text a second time, on what the first build left,
      succeeds and changes nothing. */
  lemma BuildTwice(base: Path, fs: map<Path, Node>, lines: seq<string>)
    requires Run(base, fs, [], lines).Done?
    ensures var f := Run(base, fs, [], lines).fs;
      Run(base, f, [], lines) == Done(f, Run(base, fs, [], lines).stack)
  {
    RunAgain(base, fs, [], lines, Run(base, fs, [], lines).fs);
  }
}
