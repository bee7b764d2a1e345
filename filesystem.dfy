/** An abstract filesystem: a map from paths (sequences of components) to nodes, with
    the two operations the builder performs, os.makedirs(path, exist_ok=True) and
    open(path, 'w') followed by a write. */
module FileSystem {
  import opened Text

  /** A path as the sequence of its components, outermost first; [] is the working directory. */
  type Path = seq<string>

  datatype Node = Directory | File(content: string)

  /** The outcome of an operating-system call that either succeeds or raises. */
  datatype Result<T> = Success(value: T) | Failure

  /** The components of a path string: the pieces between '/' separators, with the empty
      pieces that doubled, leading or trailing separators leave dropped. */
  function Components(s: string): Path {
    NonEmpty(Split(s, '/'))
  }

  function NonEmpty(pieces: seq<string>): (r: seq<string>)
    ensures forall k :: 0 <= k < |r| ==> r[k] != []
  {
    if pieces == [] then []
    else if pieces[0] == [] then NonEmpty(pieces[1..])
    else [pieces[0]] + NonEmpty(pieces[1..])
  }

  /** A name without separators is one component, with or without a trailing '/'. */
  lemma ComponentsOfName(n: string)
    requires n != [] && '/' !in n
    ensures Components(n) == [n]
    ensures Components(n + "/") == [n]
  {
    IndexOfAbsent(n, '/');
    assert Split(n, '/') == [n];
    IndexOfAbsent([], '/');
    SplitCons(n, [], '/');
    assert n + ['/'] + [] == n + "/";
    assert Split(n + "/", '/') == [n, []];
    assert [n][1..] == [];
    var empty: string := [];
    assert [n, empty][1..] == [empty] && [empty][1..] == [];
    assert NonEmpty([empty]) == [];
  }

  /** The invariant every real directory tree keeps: the working directory is not an
      entry, and every proper ancestor of an entry is a directory. */
  predicate Consistent(m: map<Path, Node>) {
    [] !in m && forall q, k :: q in m && 0 < k < |q| ==> q[..k] in m && m[q[..k]].Directory?
  }

  /** The non-empty prefixes of p: p itself and the ancestors os.makedirs creates. */
  function Prefixes(p: Path): set<Path> {
    set k | 1 <= k <= |p| :: p[..k]
  }

  function Ancestry(p: Path): map<Path, Node> {
    map q | q in Prefixes(p) :: Directory
  }

  /** Some non-empty prefix of p (p included) is a file. */
  predicate FileOnPath(m: map<Path, Node>, p: Path) {
    exists k :: 1 <= k <= |p| && p[..k] in m && m[p[..k]].File?
  }

  /** os.makedirs(p, exist_ok=True): creates p and its missing ancestors; raises for the
      empty path and when a prefix of p is a file. */
  function MakeDirsSpec(m: map<Path, Node>, p: Path): Result<map<Path, Node>> {
    if p == [] || FileOnPath(m, p) then Failure else Success(m + Ancestry(p))
  }

  /** What os.makedirs promises: it raises exactly for the empty path or a file on the
      path; otherwise p and all its ancestors are directories, existing entries keep
      their value, nothing else is added, and a real tree stays a real tree. */
  lemma MakeDirsFacts(m: map<Path, Node>, p: Path)
    ensures var r := MakeDirsSpec(m, p);
      (r.Success? <==> p != [] && !FileOnPath(m, p))
      && (r.Success? ==> r.value.Keys == m.Keys + Prefixes(p))
      && (r.Success? ==> forall q :: q in m ==> r.value[q] == m[q])
      && (r.Success? ==> forall k :: 1 <= k <= |p| ==> r.value[p[..k]] == Directory)
      && (r.Success? && Consistent(m) ==> Consistent(r.value))
  {
    if p != [] && !FileOnPath(m, p) {
      var r := m + Ancestry(p);
      assert forall q :: q in m && q in Prefixes(p) ==> m[q] == Directory by {
        forall q | q in m && q in Prefixes(p) ensures m[q] == Directory {
          var k :| 1 <= k <= |p| && q == p[..k];
        }
      }
      assert forall k :: 1 <= k <= |p| ==> p[..k] in Prefixes(p);
      assert Consistent(m) ==> Consistent(r) by {
        if Consistent(m) {
          forall q, k | q in r && 0 < k < |q| ensures q[..k] in r && r[q[..k]].Directory? {
            if q !in m {
              var j :| 1 <= j <= |p| && q == p[..j];
              assert q[..k] == p[..k];
            }
          }
        }
      }
    }
  }

  /** os.path.dirname on a component path: [] for a single component. */
  function DirName(p: Path): (d: Path)
    ensures |p| > 1 ==> |d| == |p| - 1 && p == d + [p[|p| - 1]]
    ensures |p| <= 1 ==> d == []
  {
    if |p| <= 1 then [] else p[..|p| - 1]
  }

  /** open(p, 'w') and write(content): raises for the empty path, for a directory, and
      when the parent is missing or is not a directory; otherwise p holds exactly content. */
  function WriteSpec(m: map<Path, Node>, p: Path, content: string): Result<map<Path, Node>> {
    if p == [] || (p in m && m[p].Directory?)
       || (|p| > 1 && !(DirName(p) in m && m[DirName(p)].Directory?))
    then Failure
    else Success(m[p := File(content)])
  }

  /** What open-and-write promises: it raises exactly in the three cases above; otherwise
      p holds the content, the other entries are kept, and a real tree stays one. */
  lemma WriteFacts(m: map<Path, Node>, p: Path, content: string)
    ensures var r := WriteSpec(m, p, content);
      (r.Success? <==>
        p != [] && !(p in m && m[p].Directory?)
        && (|p| > 1 ==> DirName(p) in m && m[DirName(p)].Directory?))
      && (r.Success? ==> r.value.Keys == m.Keys + {p} && r.value[p] == File(content))
      && (r.Success? ==> forall q :: q in m && q != p ==> r.value[q] == m[q])
      && (r.Success? && Consistent(m) ==> Consistent(r.value))
  {
    var r := WriteSpec(m, p, content);
    if r.Success? && Consistent(m) {
      forall q, k | q in r.value && 0 < k < |q| ensures q[..k] in r.value && r.value[q[..k]].Directory? {
        if q == p {
          var d := DirName(p);
          if k < |d| { assert q[..k] == d[..k]; } else { assert q[..k] == d; }
          assert q[..k] != p;
        } else {
          assert q[..k] in m && m[q[..k]].Directory?;
        }
      }
    }
  }

  /** open(p, 'r') and read(): raises when p is missing or is a directory; otherwise the
      file's content. */
  function ReadSpec(m: map<Path, Node>, p: Path): (r: Result<string>)
    ensures r.Success? <==> p in m && m[p].File?
    ensures r.Success? ==> m[p] == File(r.value)
  {
    if p in m && m[p].File? then Success(m[p].content) else Failure
  }

  /** The size os.path.getsize reports for a directory: never zero. */
  const DirectorySize: nat := 4096

  /** os.path.getsize(p) of an existing entry; a file's size is zero exactly when it holds
      nothing (its text is counted in characters, not encoded bytes). */
  function Size(n: Node): (s: nat)
    ensures s == 0 <==> n == File([])
  {
    if n.File? then |n.content| else DirectorySize
  }

  /** The filesystem the builder changes in place. */
  class FileSystem {
    var entries: map<Path, Node>

    constructor (initial: map<Path, Node>)
      ensures entries == initial
    {
      entries := initial;
    }

    /** The entries form a real directory tree. */
    predicate Valid()
      reads this
    {
      Consistent(entries)
    }

    /** os.path.exists(p). */
    predicate Exists(p: Path)
      reads this
    {
      p in entries
    }

    method MakeDirs(p: Path) returns (ok: bool)
      modifies this
      ensures ok == MakeDirsSpec(old(entries), p).Success?
      ensures entries == if ok then MakeDirsSpec(old(entries), p).value else old(entries)
      ensures old(Valid()) ==> Valid()
    {
      MakeDirsFacts(entries, p);
      var r := MakeDirsSpec(entries, p);
      ok := r.Success?;
      if ok {
        entries := r.value;
      }
    }

    method ReadFile(p: Path) returns (ok: bool, content: string)
      ensures ok == ReadSpec(entries, p).Success?
      ensures ok ==> content == ReadSpec(entries, p).value
    {
      var r := ReadSpec(entries, p);
      ok := r.Success?;
      content := if ok then r.value else [];
    }

    method WriteFile(p: Path, content: string) returns (ok: bool)
      modifies this
      ensures ok == WriteSpec(old(entries), p, content).Success?
      ensures entries == if ok then WriteSpec(old(entries), p, content).value else old(entries)
      ensures old(Valid()) ==> Valid()
    {
      WriteFacts(entries, p, content);
      var r := WriteSpec(entries, p, content);
      ok := r.Success?;
      if ok {
        entries := r.value;
      }
    }
  }
}
