/** The tree-text builder: create_actual_structure (GUI) and create_structure_from_tree
    (console) read tree text line by line, keep a stack of the open ancestors and create
    one directory or empty file per labelled line. */
module Builder {
  import opened Text
  import opened FileSystem

  const Tee: string := "├──"
  const Corner: string := "└──"
  const Bar: string := "│"

  function Min(a: nat, b: nat): nat {
    if a <= b then a else b
  }

  /** The nesting depth a line is read at: its leading glyph run, four characters a level. */
  function Depth(line: string): nat {
    LeadRun(line) / 4
  }

  /** The depth is the glyph run divided by 4, rounded down, so it is at most a quarter of
      the line's length. */
  lemma DepthFacts(line: string)
    ensures 4 * Depth(line) <= LeadRun(line) < 4 * Depth(line) + 4
    ensures 4 * Depth(line) <= |line|
  {
    LeadRunFacts(line);
  }

  /** The label of a line: the connectors and bars deleted, surrounding whitespace trimmed. */
  function Clean(line: string): string {
    Strip(Remove(Remove(Remove(line, Tee), Corner), Bar))
  }

  /** A label holds no vertical bar, neither starts nor ends with whitespace, is no
      longer than its line, and holds only characters of the line. */
  lemma CleanFacts(line: string)
    ensures '│' !in Clean(line)
    ensures Clean(line) != [] ==> !IsSpace(Clean(line)[0]) && !IsSpace(Clean(line)[|Clean(line)| - 1])
    ensures |Clean(line)| <= |line|
  {
    var r1 := Remove(line, Tee);
    var r2 := Remove(r1, Corner);
    RemoveFacts(line, Tee);
    RemoveFacts(r1, Corner);
    BarsDeleted(r2);
  }

  /** The last two passes of Clean: no bar is left, and stripping keeps only characters
      of the text and trims both ends. */
  lemma BarsDeleted(r2: string)
    ensures var name := Strip(Remove(r2, Bar));
      '│' !in name && |name| <= |r2|
      && (name != [] ==> !IsSpace(name[0]) && !IsSpace(name[|name| - 1]))
  {
    var r3 := Remove(r2, Bar);
    RemoveFacts(r2, Bar);
    assert Bar[0] == '│';
    StripFacts(r3);
    StripKeeps(r3);
    var name := Strip(r3);
    forall i | 0 <= i < |name| ensures name[i] != '│' {
      assert name[i] in r3;
    }
  }

  /** The file-or-directory rule: a file has a '.' in its label and no trailing '/'. */
  predicate IsFile(name: string) {
    '.' in name && !(name != [] && name[|name| - 1] == '/')
  }

  /** os.path.join(base, *stack), resolved into components. */
  function JoinPath(base: Path, stack: seq<string>): (p: Path)
    ensures |p| >= |base| && p[..|base|] == base
  {
    if stack == [] then base else JoinPath(base, stack[..|stack| - 1]) + Components(stack[|stack| - 1])
  }

  /** The state after some lines: still going with a filesystem and a stack, or stopped
      by a raised error with whatever the filesystem holds by then. */
  datatype Outcome = Done(fs: map<Path, Node>, stack: seq<string>) | Failed(fs: map<Path, Node>)

  /** What an operating-system step left: whether it went through, and the filesystem,
      partly changed when a later call raised. */
  datatype Effect = Effect(ok: bool, fs: map<Path, Node>)

  /** The file branch: the parent directory chain is made if the parent is missing, then
      the file is opened for writing, which leaves it empty. */
  function NewFile(fs: map<Path, Node>, p: Path): Effect {
    var parent := DirName(p);
    var made := if parent != [] && parent !in fs then MakeDirsSpec(fs, parent) else Success(fs);
    if made.Failure? then Effect(false, fs)
    else match WriteSpec(made.value, p, [])
      case Failure => Effect(false, made.value)
      case Success(fs2) => Effect(true, fs2)
  }

  /** The directory branch: the directory and its ancestors are made unless the path exists. */
  function NewDir(fs: map<Path, Node>, p: Path): Effect {
    if p in fs then Effect(true, fs)
    else match MakeDirsSpec(fs, p)
      case Failure => Effect(false, fs)
      case Success(fs2) => Effect(true, fs2)
  }

  /** What creating the entry on top of the stack does, at base joined with the stack. */
  function Create(base: Path, fs: map<Path, Node>, st: seq<string>): (o: Outcome)
    requires st != []
    ensures o.Done? ==> o.stack == st
  {
    var p := JoinPath(base, st);
    var e := if IsFile(st[|st| - 1]) then NewFile(fs, p) else NewDir(fs, p);
    if e.ok then Done(e.fs, st) else Failed(e.fs)
  }

  /** What one line of tree text does to the filesystem and the path stack. */
  function Step(base: Path, fs: map<Path, Node>, stack: seq<string>, line: string): Outcome {
    if Strip(line) == [] then Done(fs, stack)
    else
      var kept := stack[..Min(|stack|, Depth(line))];
      var name := Clean(line);
      if name == [] then Done(fs, kept) else Create(base, fs, kept + [name])
  }

  /** The lines processed in order; the first raised error ends the run. */
  function Run(base: Path, fs: map<Path, Node>, stack: seq<string>, lines: seq<string>): Outcome
    decreases |lines|, 1
  {
    if lines == [] then Done(fs, stack) else Then(base, Step(base, fs, stack, lines[0]), lines[1..])
  }

  /** The remaining lines after the outcome of one line. */
  function Then(base: Path, o: Outcome, rest: seq<string>): Outcome
    decreases |rest|, 2
  {
    match o
    case Failed(f) => Failed(f)
    case Done(fs, stack) => Run(base, fs, stack, rest)
  }

  lemma RunFirst(base: Path, fs: map<Path, Node>, stack: seq<string>, lines: seq<string>)
    requires lines != []
    ensures var o := Step(base, fs, stack, lines[0]);
      Run(base, fs, stack, lines) == if o.Failed? then o else Run(base, o.fs, o.stack, lines[1..])
  {
  }

  /** Whatever a line does, and whether or not a call raises part way, a real tree stays
      a real tree. */
  lemma StepConsistent(base: Path, fs: map<Path, Node>, stack: seq<string>, line: string)
    requires Consistent(fs)
    ensures Consistent(Step(base, fs, stack, line).fs)
  {
    if Strip(line) != [] && Clean(line) != [] {
      var st := stack[..Min(|stack|, Depth(line))] + [Clean(line)];
      var p := JoinPath(base, st);
      var parent := DirName(p);
      MakeDirsFacts(fs, parent);
      MakeDirsFacts(fs, p);
      var made := if parent != [] && parent !in fs then MakeDirsSpec(fs, parent) else Success(fs);
      if made.Success? {
        WriteFacts(made.value, p, []);
      }
    }
  }

  /** A run keeps a real tree real, up to the last line or the line that raised. */
  lemma {:induction false} RunConsistent(base: Path, fs: map<Path, Node>, stack: seq<string>, lines: seq<string>)
    requires Consistent(fs)
    ensures Consistent(Run(base, fs, stack, lines).fs)
    decreases |lines|
  {
    if lines != [] {
      var o := Step(base, fs, stack, lines[0]);
      StepConsistent(base, fs, stack, lines[0]);
      if o.Done? {
        RunConsistent(base, o.fs, o.stack, lines[1..]);
      }
    }
  }

  /** The loop of create_actual_structure and create_structure_from_tree over the given
      lines, with paths joined onto base. */
  method Build(fs: FileSystem, base: Path, lines: seq<string>) returns (ok: bool)
    modifies fs
    ensures ok == Run(base, old(fs.entries), [], lines).Done?
    ensures fs.entries == Run(base, old(fs.entries), [], lines).fs
  {
    var stack: seq<string> := [];
    var i := 0;
    while i < |lines|
      invariant 0 <= i <= |lines|
      invariant Run(base, old(fs.entries), [], lines) == Run(base, fs.entries, stack, lines[i..])
    {
      ghost var fs0, st0 := fs.entries, stack;
      ok, stack := ProcessLine(fs, base, stack, lines[i]);
      RunFirst(base, fs0, st0, lines[i..]);
      assert lines[i..][1..] == lines[i + 1..];
      if !ok {
        return;
      }
      i := i + 1;
    }
    ok := true;
  }

  /** One pass of the loop body: skip a blank line, count the leading glyphs, pop the
      stack back to the depth, and create the entry of a labelled line. */
  method ProcessLine(fs: FileSystem, base: Path, stack: seq<string>, line: string)
    returns (ok: bool, stack': seq<string>)
    modifies fs
    ensures ok == Step(base, old(fs.entries), stack, line).Done?
    ensures fs.entries == Step(base, old(fs.entries), stack, line).fs
    ensures ok ==> stack' == Step(base, old(fs.entries), stack, line).stack
  {
    ok, stack' := true, stack;
    if Strip(line) == [] {
      return;
    }
    var count := CountGlyphs(line);
    stack' := PopTo(stack, count / 4);
    var name := Clean(line);
    if name == [] {
      return;
    }
    stack' := stack' + [name];
    assert Step(base, old(fs.entries), stack, line) == Create(base, old(fs.entries), stack');
    ok := CreateEntry(fs, base, stack');
  }

  /** The count of leading glyph characters, character by character. */
  method CountGlyphs(line: string) returns (count: nat)
    ensures count == LeadRun(line)
  {
    LeadRunFacts(line);
    count := 0;
    while count < |line| && IsGlyph(line[count])
      invariant count <= LeadRun(line)
    {
      count := count + 1;
    }
  }

  /** The pop loop: drops the innermost entries while the stack is deeper than depth. */
  method PopTo(stack: seq<string>, depth: nat) returns (kept: seq<string>)
    ensures kept == stack[..Min(|stack|, depth)]
  {
    kept := stack;
    while |kept| > depth
      invariant kept == stack[..|kept|]
      invariant |kept| >= Min(|stack|, depth)
    {
      kept := kept[..|kept| - 1];
    }
  }

  /** The creation step of the loop for the entry on top of the stack. */
  method CreateEntry(fs: FileSystem, base: Path, st: seq<string>) returns (ok: bool)
    requires st != []
    modifies fs
    ensures ok == Create(base, old(fs.entries), st).Done?
    ensures fs.entries == Create(base, old(fs.entries), st).fs
  {
    var p := JoinPath(base, st);
    if IsFile(st[|st| - 1]) {
      ok := MakeFile(fs, p);
    } else {
      ok := MakeDir(fs, p);
    }
  }

  method MakeFile(fs: FileSystem, p: Path) returns (ok: bool)
    modifies fs
    ensures ok == NewFile(old(fs.entries), p).ok
    ensures fs.entries == NewFile(old(fs.entries), p).fs
  {
    var parent := DirName(p);
    if parent != [] && !fs.Exists(parent) {
      ok := fs.MakeDirs(parent);
      if !ok {
        return;
      }
    }
    ok := fs.WriteFile(p, []);
  }

  method MakeDir(fs: FileSystem, p: Path) returns (ok: bool)
    modifies fs
    ensures ok == NewDir(old(fs.entries), p).ok
    ensures fs.entries == NewDir(old(fs.entries), p).fs
  {
    if !fs.Exists(p) {
      ok := fs.MakeDirs(p);
    } else {
      ok := true;
    }
  }

  /** create_actual_structure(base_dir, structure_content): the text split on '\n'. */
  method CreateActualStructure(fs: FileSystem, base: Path, content: string) returns (ok: bool)
    modifies fs
    ensures ok == Run(base, old(fs.entries), [], Split(content, '\n')).Done?
    ensures fs.entries == Run(base, old(fs.entries), [], Split(content, '\n')).fs
    ensures old(fs.Valid()) ==> fs.Valid()
  {
    ghost var before := fs.entries;
    ok := Build(fs, base, Split(content, '\n'));
    if Consistent(before) {
      RunConsistent(base, before, [], Split(content, '\n'));
    }
  }
}
