/** The console program: it makes sure the structure file exists and is not empty, and
    builds the tree the file describes relative to the working directory. */
module Console {
  import opened Text
  import opened FileSystem
  import opened Builder
  import opened BuilderFacts
  import opened RoundTrip
  import opened Template

  // ----- ensure_structure_file -----

  /** The file must be (re)written with the template: it is missing, or it is an empty
      file. A directory has a non-zero size and is left alone. */
  predicate NeedsTemplate(m: map<Path, Node>, p: Path) {
    p !in m || Size(m[p]) == 0
  }

  /** What ensure_structure_file does to the filesystem and what it returns. */
  datatype Ensured = Ensured(created: bool, fs: map<Path, Node>)

  function EnsureSpec(m: map<Path, Node>, p: Path): Result<Ensured> {
    if NeedsTemplate(m, p) then
      var w := WriteSpec(m, p, DefaultStructure);
      if w.Success? then Success(Ensured(true, w.value)) else Failure
    else Success(Ensured(false, m))
  }

  /** It reports True exactly when the file was missing or empty, and then the file holds
      the template and nothing else changed; otherwise it reports False and changes
      nothing; it raises only when the template cannot be written. */
  lemma EnsureFacts(m: map<Path, Node>, p: Path)
    ensures var r := EnsureSpec(m, p);
      (r.Failure? <==> NeedsTemplate(m, p) && WriteSpec(m, p, DefaultStructure).Failure?)
      && (r.Success? ==> (r.value.created <==> p !in m || m[p] == File([])))
      && (r.Success? && r.value.created ==>
            r.value.fs[p] == File(DefaultStructure) && r.value.fs.Keys == m.Keys + {p}
            && forall q :: q in m && q != p ==> r.value.fs[q] == m[q])
      && (r.Success? && !r.value.created ==> r.value.fs == m)
  {
    WriteFacts(m, p, DefaultStructure);
  }

  /** A structure file in a real tree can always be written: when its parent exists, the
      template goes in whether the file was missing or empty. */
  lemma EnsureSucceeds(m: map<Path, Node>, p: Path)
    requires Consistent(m) && p != []
    requires |p| > 1 ==> DirName(p) in m && m[DirName(p)].Directory?
    ensures EnsureSpec(m, p).Success?
    ensures EnsureSpec(m, p).value.created ==> Consistent(EnsureSpec(m, p).value.fs)
  {
    WriteFacts(m, p, DefaultStructure);
  }

  method EnsureStructureFile(fs: FileSystem, p: Path) returns (ok: bool, created: bool)
    modifies fs
    ensures ok == EnsureSpec(old(fs.entries), p).Success?
    ensures ok ==> created == EnsureSpec(old(fs.entries), p).value.created
    ensures fs.entries == if ok then EnsureSpec(old(fs.entries), p).value.fs else old(fs.entries)
    ensures old(fs.Valid()) ==> fs.Valid()
  {
    created := false;
    ok := true;
    if !fs.Exists(p) || Size(fs.entries[p]) == 0 {
      ok := fs.WriteFile(p, DefaultStructure);
      created := ok;
    }
  }

  // ----- create_structure_from_tree -----

  /** create_structure_from_tree(file_path): read the file's lines; when there are none,
      write the template into it and read the template's text split on '\n' instead;
      then build the tree from the working directory. */
  function ConsoleSpec(m: map<Path, Node>, p: Path): Outcome {
    var r := ReadSpec(m, p);
    if r.Failure? then Failed(m)
    else if ReadLines(r.value) == [] then
      var w := WriteSpec(m, p, DefaultStructure);
      if w.Failure? then Failed(m)
      else Run([], w.value, [], Split(DefaultStructure, '\n'))
    else Run([], m, [], ReadLines(r.value))
  }

  method CreateStructureFromTree(fs: FileSystem, p: Path) returns (ok: bool)
    modifies fs
    ensures ok == ConsoleSpec(old(fs.entries), p).Done?
    ensures fs.entries == ConsoleSpec(old(fs.entries), p).fs
    ensures old(fs.Valid()) ==> fs.Valid()
  {
    var read, content := fs.ReadFile(p);
    if !read {
      return false;
    }
    var lines := ReadLines(content);
    if lines == [] {
      var written := fs.WriteFile(p, DefaultStructure);
      if !written {
        return false;
      }
      lines := Split(DefaultStructure, '\n');
    }
    ghost var before := fs.entries;
    ok := Build(fs, [], lines);
    if Consistent(before) {
      RunConsistent([], before, [], lines);
    }
  }

  /** A non-empty structure file builds what the GUI builds from the same text with the
      working directory as its base: the '\n' each line keeps changes nothing. */
  lemma ConsoleAsGui(m: map<Path, Node>, p: Path)
    requires p in m && m[p].File? && m[p].content != []
    ensures ConsoleSpec(m, p) == Run([], m, [], Split(m[p].content, '\n'))
  {
    ReadLinesEmpty(m[p].content);
    ReadLinesAsSplit([], m, [], m[p].content);
  }

  /** A missing or unreadable structure file stops the console before anything is made. */
  lemma ConsoleUnreadable(m: map<Path, Node>, p: Path)
    requires p !in m || m[p].Directory?
    ensures ConsoleSpec(m, p) == Failed(m)
  {
  }

  /** An empty structure file is filled with the template, and the template's tree is
      built in the working directory: "my_bot" with its three packages and eight files. */
  lemma ConsoleEmptyFile(m: map<Path, Node>, p: Path)
    requires Consistent(m) && p in m && m[p] == File([])
    requires !FileOnPath(m, ["my_bot"]) && Fresh(m, ["my_bot"], Names(DefaultTree))
    ensures var o := ConsoleSpec(m, p);
      o.Done? && o.fs == m[p := File(DefaultStructure)] + Ancestry(["my_bot"]) + DefaultEntries(["my_bot"])
  {
    var m' := m[p := File(DefaultStructure)];
    ReadLinesEmpty(m[p].content);
    WriteFacts(m, p, DefaultStructure);
    assert |p| > 1 ==> DirName(p) in m && m[DirName(p)].Directory? by {
      if |p| > 1 {
        assert p[..|p| - 1] == DirName(p);
      }
    }
    UpdateKeepsTemplateRoot(m, p, DefaultStructure);
    AtWorkingDirectory(m');
  }

  /** Rewriting an existing file keeps "my_bot" free of files on its path and keeps the
      template's names fresh below it. */
  lemma UpdateKeepsTemplateRoot(m: map<Path, Node>, p: Path, text: string)
    requires p in m && m[p].File?
    requires !FileOnPath(m, ["my_bot"]) && Fresh(m, ["my_bot"], Names(DefaultTree))
    ensures !FileOnPath(m[p := File(text)], ["my_bot"])
    ensures Fresh(m[p := File(text)], ["my_bot"], Names(DefaultTree))
  {
    var r: Path := ["my_bot"];
    assert r[..1] == r;
    assert p != r;
  }

  /** The file ensure_structure_file writes builds the template's tree in the working
      directory, as an empty file does. */
  lemma ConsoleTemplateFile(m: map<Path, Node>, p: Path)
    requires Consistent(m) && p in m && m[p] == File(DefaultStructure)
    requires !FileOnPath(m, ["my_bot"]) && Fresh(m, ["my_bot"], Names(DefaultTree))
    ensures var o := ConsoleSpec(m, p);
      o.Done? && o.fs == m + Ancestry(["my_bot"]) + DefaultEntries(["my_bot"])
  {
    DefaultNotEmpty();
    ConsoleAsGui(m, p);
    AtWorkingDirectory(m);
  }

  /** The template read with the working directory as its base. */
  lemma AtWorkingDirectory(m: map<Path, Node>)
    requires Consistent(m) && !FileOnPath(m, ["my_bot"]) && Fresh(m, ["my_bot"], Names(DefaultTree))
    ensures var o := Run([], m, [], Split(DefaultStructure, '\n'));
      o.Done? && o.fs == m + Ancestry(["my_bot"]) + DefaultEntries(["my_bot"])
  {
    var here: Path := [];
    assert here + ["my_bot"] == ["my_bot"];
    DefaultTemplate(here, m);
  }

  lemma DefaultNotEmpty()
    ensures DefaultStructure != []
  {
    assert |DefaultStructure| == |Join(DefaultLines, '\n')| + 1;
  }
}
