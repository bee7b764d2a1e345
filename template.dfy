/** DEFAULT_STRUCTURE, the template both programs start from: a bot project with two
    top-level modules and three packages, in the serializer's tree notation. */
module Template {
  import opened Text
  import opened FileSystem
  import opened Builder
  import opened Serializer
  import opened RoundTrip

  /** The template's lines, as written in both programs; each line is spelled as its
      indentation, its connector and its label. */
  const DefaultLines: seq<string> := [
    "my_bot/",
    "├── " + "bot.py",
    "├── " + "config.py",
    "├── " + "handlers" + "/",
    "│   " + "├── " + "__init__.py",
    "│   " + "├── " + "subscription_handler.py",
    "│   " + "├── " + "payment_handler.py",
    "│   " + "└── " + "usage_handler.py",
    "├── " + "utils" + "/",
    "│   " + "└── " + "data_manager.py",
    "└── " + "data" + "/",
    "    " + "└── " + "user_12345.json"
  ]

  /** The template text: its lines, each ended by a line break. */
  const DefaultStructure: string := Join(DefaultLines, '\n') + "\n"

  /** The tree the template describes below its root line, listed in its own order. */
  const Handlers: seq<Entry> := [Entry.File("__init__.py"), Entry.File("subscription_handler.py"),
                                 Entry.File("payment_handler.py"), Entry.File("usage_handler.py")]
  const Utils: seq<Entry> := [Entry.File("data_manager.py")]
  const Data: seq<Entry> := [Entry.File("user_12345.json")]
  const DefaultTree: seq<Entry> := [Entry.File("bot.py"), Entry.File("config.py"),
                                    Entry.Dir("handlers", Handlers), Entry.Dir("utils", Utils),
                                    Entry.Dir("data", Data)]

  /** What the template makes below the directory r it is rooted at: three packages and
      eight empty files. */
  function DefaultEntries(r: Path): map<Path, Node> {
    map[r + ["bot.py"] := Node.File([]), r + ["config.py"] := Node.File([]),
        r + ["handlers"] := Directory,
        r + ["handlers", "__init__.py"] := Node.File([]),
        r + ["handlers", "subscription_handler.py"] := Node.File([]),
        r + ["handlers", "payment_handler.py"] := Node.File([]),
        r + ["handlers", "usage_handler.py"] := Node.File([]),
        r + ["utils"] := Directory, r + ["utils", "data_manager.py"] := Node.File([]),
        r + ["data"] := Directory, r + ["data", "user_12345.json"] := Node.File([])]
  }

  // ----- the template's text -----

  lemma DefaultNoNewline()
    ensures forall k :: 0 <= k < |DefaultLines + [[]]| ==> '\n' !in (DefaultLines + [[]])[k]
  {
    var ls := DefaultLines + [[]];
    var tail := Lines("", DefaultTree);
    DefaultRendered();
    DefaultWellFormed();
    RootNoNewline("my_bot");
    LinesNoNewline("", DefaultTree);
    forall k | 0 <= k < |ls| ensures '\n' !in ls[k] {
      if 0 < k < |DefaultLines| {
        assert ls[k] == tail[k - 1];
      }
    }
  }

  /** Splitting the template text on '\n' gives its lines and, after the final line
      break, one empty line. */
  lemma DefaultSplit()
    ensures Split(DefaultStructure, '\n') == DefaultLines + [[]]
  {
    var empty: string := [];
    JoinAppend(DefaultLines, [empty]);
    assert Join([empty], '\n') == [];
    assert Join(DefaultLines, '\n') + "\n" + [] == DefaultStructure;
    DefaultNoNewline();
    SplitJoin(DefaultLines + [empty], '\n');
  }

  // ----- the template's tree -----

  /** A file entry's line before more entries, and as the last entry. */
  lemma FileLine(prefix: string, n: string, rest: seq<Entry>)
    ensures Lines(prefix, [Entry.File(n)] + rest) == [prefix + Pointer(rest == []) + n] + Lines(prefix, rest)
  {
    LinesCons(prefix, Entry.File(n), rest);
  }

  /** A directory entry's line, its entries' lines one level deeper, then the rest. */
  lemma DirLine(prefix: string, n: string, cs: seq<Entry>, rest: seq<Entry>)
    requires cs != []
    ensures Lines(prefix, [Entry.Dir(n, cs)] + rest)
      == [prefix + Pointer(rest == []) + n + "/"] + Lines(prefix + Extension(rest == []), cs) + Lines(prefix, rest)
  {
    LinesCons(prefix, Entry.Dir(n, cs), rest);
    assert Lines(prefix + Extension(rest == []), cs) != [];
    assert prefix + Pointer(rest == []) + (n + "/") == prefix + Pointer(rest == []) + n + "/";
  }

  lemma HandlersLines()
    ensures Lines("│   ", Handlers) == DefaultLines[4..8]
  {
    var none: seq<Entry> := [];
    var a, b, c, d := Entry.File("__init__.py"), Entry.File("subscription_handler.py"),
                      Entry.File("payment_handler.py"), Entry.File("usage_handler.py");
    FileLine("│   ", "__init__.py", [b, c, d]);
    FileLine("│   ", "subscription_handler.py", [c, d]);
    FileLine("│   ", "payment_handler.py", [d]);
    FileLine("│   ", "usage_handler.py", none);
    assert Handlers == [a] + [b, c, d] && [b, c, d] == [b] + [c, d] && [c, d] == [c] + [d] && [d] == [d] + none;
  }

  lemma SubLines()
    ensures Lines("│   ", Utils) == DefaultLines[9..10]
    ensures Lines("    ", Data) == DefaultLines[11..]
  {
    var none: seq<Entry> := [];
    FileLine("│   ", "data_manager.py", none);
    FileLine("    ", "user_12345.json", none);
    assert Utils == [Entry.File("data_manager.py")] + none && Data == [Entry.File("user_12345.json")] + none;
  }

  /** The template is the root line "my_bot/" followed by the listing-order lines of its
      tree, in the template's own order, which is not sorted. */
  lemma DefaultRendered()
    ensures DefaultLines == ["my_bot/"] + Lines("", DefaultTree)
  {
    var c, h := Entry.File("config.py"), Entry.Dir("handlers", Handlers);
    ConfigRendered();
    FileLine("", "bot.py", [c, h] + Rest);
    assert DefaultTree == [Entry.File("bot.py")] + ([c, h] + Rest);
    assert DefaultLines[1] == "" + Pointer(false) + "bot.py";
    assert DefaultLines == [DefaultLines[0], DefaultLines[1]] + DefaultLines[2..];
  }

  lemma ConfigRendered()
    ensures Lines("", [Entry.File("config.py"), Entry.Dir("handlers", Handlers)] + Rest) == DefaultLines[2..]
  {
    var h := Entry.Dir("handlers", Handlers);
    HandlersRendered();
    FileLine("", "config.py", [h] + Rest);
    assert [Entry.File("config.py")] + ([h] + Rest) == [Entry.File("config.py"), h] + Rest;
    assert DefaultLines[2] == "" + Pointer(false) + "config.py";
    assert DefaultLines[2..] == [DefaultLines[2]] + DefaultLines[3..];
  }

  /** The last two top-level entries. */
  const Rest: seq<Entry> := [Entry.Dir("utils", Utils), Entry.Dir("data", Data)]

  lemma HandlersRendered()
    ensures Lines("", [Entry.Dir("handlers", Handlers)] + Rest) == DefaultLines[3..]
  {
    RestRendered();
    HandlersLines();
    DirLine("", "handlers", Handlers, Rest);
    TopDirLines();
    Slices(DefaultLines, 3, 8);
  }

  lemma RestRendered()
    ensures Lines("", Rest) == DefaultLines[8..]
  {
    DataRendered();
    SubLines();
    DirLine("", "utils", Utils, [Entry.Dir("data", Data)]);
    TopDirLines();
    Slices(DefaultLines, 8, 10);
  }

  /** The lines of the first two top-level packages, and the prefix their contents take. */
  lemma TopDirLines()
    ensures DefaultLines[3] == "" + Pointer(false) + "handlers" + "/"
    ensures DefaultLines[8] == "" + Pointer(false) + "utils" + "/"
    ensures "" + Extension(false) == Extension(false)
  {
    var e: string := [];
    assert e + Extension(false) == Extension(false);
  }

  /** A suffix of a list as its first element, a middle part and the rest. */
  lemma Slices(ls: seq<string>, i: nat, j: nat)
    requires i < j <= |ls|
    ensures ls[i..] == [ls[i]] + ls[i + 1..j] + ls[j..]
  {
  }

  lemma DataRendered()
    ensures Lines("", [Entry.Dir("data", Data)]) == DefaultLines[10..]
  {
    var e: string := [];
    var none: seq<Entry> := [];
    SubLines();
    DirLine("", "data", Data, none);
    assert [Entry.Dir("data", Data)] == [Entry.Dir("data", Data)] + none;
    assert e + Extension(true) == Extension(true);
    assert DefaultLines[10] == "" + Pointer(true) + "data" + "/";
    assert DefaultLines[10..] == [DefaultLines[10]] + DefaultLines[11..];
  }

  /** The template's names are plain: lower-case letters, digits, '_' and '.'. */
  predicate Plain(n: string) {
    n != [] && forall c :: c in n ==> ('a' <= c <= 'z') || ('0' <= c <= '9') || c == '_' || c == '.'
  }

  lemma PlainValid(n: string)
    requires Plain(n)
    ensures ValidName(n)
  {
    assert n[0] in n && n[|n| - 1] in n;
  }

  /** The template's tree has valid, distinct names on every level and a '.' in every
      file name, as does its root. */
  lemma DefaultWellFormed()
    ensures ValidName("my_bot") && WellFormed(DefaultTree)
  {
    MyBotName();
    HandlersWellFormed();
    SubWellFormed();
    BotPyName();
    ConfigPyName();
    HandlersDirName();
    UtilsDirName();
    DataDirName();
    TopLevel(Entry.File("bot.py"), Entry.File("config.py"), Entry.Dir("handlers", Handlers),
             Entry.Dir("utils", Utils), Entry.Dir("data", Data));
  }

  lemma SubWellFormed()
    ensures WellFormed(Utils) && WellFormed(Data)
  {
    DataManagerPyName();
    UserJsonName();
    OneFile("data_manager.py");
    OneFile("user_12345.json");
  }

  lemma OneFile(a: string)
    requires ValidName(a) && '.' in a
    ensures WellFormed([Entry.File(a)])
  {
  }

  lemma HandlersWellFormed()
    ensures WellFormed(Handlers)
  {
    InitPyName();
    SubscriptionPyName();
    PaymentPyName();
    UsagePyName();
    FourFiles("__init__.py", "subscription_handler.py", "payment_handler.py", "usage_handler.py");
  }

  lemma MyBotName()
    ensures ValidName("my_bot") && |"my_bot"| == 6
  {
    PlainValid("my_bot");
  }

  lemma BotPyName()
    ensures ValidName("bot.py") && '.' in "bot.py" && |"bot.py"| == 6
  {
    PlainValid("bot.py");
  }

  lemma ConfigPyName()
    ensures ValidName("config.py") && '.' in "config.py" && |"config.py"| == 9
  {
    PlainValid("config.py");
  }

  lemma HandlersDirName()
    ensures ValidName("handlers") && |"handlers"| == 8
  {
    PlainValid("handlers");
  }

  lemma UtilsDirName()
    ensures ValidName("utils") && |"utils"| == 5
  {
    PlainValid("utils");
  }

  lemma DataDirName()
    ensures ValidName("data") && |"data"| == 4
  {
    PlainValid("data");
  }

  lemma InitPyName()
    ensures ValidName("__init__.py") && '.' in "__init__.py" && |"__init__.py"| == 11
  {
    PlainValid("__init__.py");
  }

  lemma SubscriptionPyName()
    ensures ValidName("subscription_handler.py") && '.' in "subscription_handler.py" && |"subscription_handler.py"| == 23
  {
    PlainValid("subscription_handler.py");
  }

  lemma PaymentPyName()
    ensures ValidName("payment_handler.py") && '.' in "payment_handler.py" && |"payment_handler.py"| == 18
  {
    PlainValid("payment_handler.py");
  }

  lemma UsagePyName()
    ensures ValidName("usage_handler.py") && '.' in "usage_handler.py" && |"usage_handler.py"| == 16
  {
    PlainValid("usage_handler.py");
  }

  lemma DataManagerPyName()
    ensures ValidName("data_manager.py") && '.' in "data_manager.py" && |"data_manager.py"| == 15
  {
    PlainValid("data_manager.py");
  }

  lemma UserJsonName()
    ensures ValidName("user_12345.json") && '.' in "user_12345.json" && |"user_12345.json"| == 15
  {
    PlainValid("user_12345.json");
  }

  /** Four files with valid names of different lengths form a well-formed level. */
  lemma FourFiles(a: string, b: string, c: string, d: string)
    requires ValidName(a) && ValidName(b) && ValidName(c) && ValidName(d)
    requires '.' in a && '.' in b && '.' in c && '.' in d
    requires |a| != |b| && |a| != |c| && |a| != |d| && |b| != |c| && |b| != |d| && |c| != |d|
    ensures WellFormed([Entry.File(a), Entry.File(b), Entry.File(c), Entry.File(d)])
  {
  }

  /** Two files and three directories with valid names of different lengths and
      well-formed contents form a well-formed level. */
  lemma TopLevel(a: Entry, b: Entry, c: Entry, d: Entry, e: Entry)
    requires a.File? && b.File? && c.Dir? && d.Dir? && e.Dir?
    requires ValidName(a.name) && ValidName(b.name) && ValidName(c.name) && ValidName(d.name) && ValidName(e.name)
    requires '.' in a.name && '.' in b.name
    requires WellFormed(c.children) && WellFormed(d.children) && WellFormed(e.children)
    requires |a.name| != |b.name| && |a.name| != |c.name| && |a.name| != |d.name| && |a.name| != |e.name|
    requires |b.name| != |c.name| && |b.name| != |d.name| && |b.name| != |e.name|
    requires |c.name| != |d.name| && |c.name| != |e.name| && |d.name| != |e.name|
    ensures WellFormed([a, b, c, d, e])
  {
  }
  // ----- what the template creates -----

  /** Reading the template under base, as the console does with a new structure file:
      the root directory "my_bot" and every directory above it, then the three packages
      and the eight empty files, and nothing else. */
  lemma DefaultTemplate(base: Path, fs: map<Path, Node>)
    requires Consistent(fs) && !FileOnPath(fs, base + ["my_bot"])
    requires Fresh(fs, base + ["my_bot"], Names(DefaultTree))
    ensures var o := Run(base, fs, [], Split(DefaultStructure, '\n'));
      o.Done? && o.fs == fs + Ancestry(base + ["my_bot"]) + DefaultEntries(base + ["my_bot"])
  {
    var r := base + ["my_bot"];
    DefaultSplit();
    DefaultRendered();
    DefaultWellFormed();
    TreeRoundTrip(base, fs, "my_bot", DefaultTree);
    assert "my_bot" + "/" == DefaultLines[0];
    var o := Run(base, fs, [], DefaultLines);
    RunAppend(base, fs, [], DefaultLines, [[]]);
    BlankRun(base, o.fs, o.stack);
    DefaultTreeMap(r);
  }

  /** The template's tree as paths below r. */
  lemma DefaultTreeMap(r: Path)
    ensures TreeMap(r, DefaultTree) == DefaultEntries(r)
  {
    var none: seq<Entry> := [];
    var h, u, d := r + ["handlers"], r + ["utils"], r + ["data"];
    var t := DefaultTree;
    TreeMapFile(r, "bot.py", t[1..]);
    TreeMapFile(r, "config.py", t[2..]);
    TreeMapDir(r, "handlers", Handlers, t[3..]);
    TreeMapDir(r, "utils", Utils, t[4..]);
    TreeMapDir(r, "data", Data, none);
    Unfold5(t);
    FourFileMap(h, "__init__.py", "subscription_handler.py", "payment_handler.py", "usage_handler.py");
    OneFileMap(u, "data_manager.py");
    OneFileMap(d, "user_12345.json");
    EntryPaths(r);
    Flatten(r + ["bot.py"], r + ["config.py"], h,
            h + ["__init__.py"], h + ["subscription_handler.py"], h + ["payment_handler.py"], h + ["usage_handler.py"],
            u, u + ["data_manager.py"], d, d + ["user_12345.json"]);
  }

  lemma Unfold5(t: seq<Entry>)
    requires |t| == 5
    ensures t == [t[0]] + t[1..] && t[1..] == [t[1]] + t[2..] && t[2..] == [t[2]] + t[3..]
    ensures t[3..] == [t[3]] + t[4..] && t[4..] == [t[4]] + []
  {
  }

  lemma TreeMapFile(p: Path, n: string, rest: seq<Entry>)
    ensures TreeMap(p, [Entry.File(n)] + rest) == map[p + [n] := Node.File([])] + TreeMap(p, rest)
  {
    assert ([Entry.File(n)] + rest)[1..] == rest;
  }

  lemma TreeMapDir(p: Path, n: string, cs: seq<Entry>, rest: seq<Entry>)
    ensures TreeMap(p, [Entry.Dir(n, cs)] + rest)
      == map[p + [n] := Directory] + TreeMap(p + [n], cs) + TreeMap(p, rest)
  {
    assert ([Entry.Dir(n, cs)] + rest)[1..] == rest;
  }

  lemma OneFileMap(p: Path, a: string)
    ensures TreeMap(p, [Entry.File(a)]) == map[p + [a] := Node.File([])]
  {
    var none: seq<Entry> := [];
    TreeMapFile(p, a, none);
    assert [Entry.File(a)] == [Entry.File(a)] + none;
  }

  lemma FourFileMap(p: Path, a: string, b: string, c: string, d: string)
    ensures TreeMap(p, [Entry.File(a), Entry.File(b), Entry.File(c), Entry.File(d)])
      == map[p + [a] := Node.File([]), p + [b] := Node.File([]), p + [c] := Node.File([]), p + [d] := Node.File([])]
  {
    var f := Node.File([]);
    var fs := [Entry.File(a), Entry.File(b), Entry.File(c), Entry.File(d)];
    assert fs == [fs[0]] + fs[1..] && fs[1..] == [fs[1]] + fs[2..] && fs[2..] == [fs[2]] + fs[3..];
    OneFileMap(p, d);
    TreeMapFile(p, c, fs[3..]);
    TreeMapFile(p, b, fs[2..]);
    TreeMapFile(p, a, fs[1..]);
    var ma, mb, mc, md := map[p + [a] := f], map[p + [b] := f], map[p + [c] := f], map[p + [d] := f];
    Assoc(mb, mc, md);
    Assoc(ma, mb + mc, md);
    Assoc(ma, mb, mc);
    Single(ma, p + [b], f);
    Single(ma + mb, p + [c], f);
    Single(ma + mb + mc, p + [d], f);
  }

  /** Union is associative. */
  lemma Assoc(a: map<Path, Node>, b: map<Path, Node>, c: map<Path, Node>)
    ensures a + (b + c) == a + b + c
  {
  }

  /** A union with a one-entry map is an update. */
  lemma Single(m: map<Path, Node>, k: Path, v: Node)
    ensures m + map[k := v] == m[k := v]
  {
  }

  /** A union with an updated map is the updated union. */
  lemma UnionUpdate(m: map<Path, Node>, d: map<Path, Node>, k: Path, v: Node)
    ensures m + d[k := v] == (m + d)[k := v]
  {
  }

  /** The nested unions TreeMap builds for the template, flattened in the same order. */
  lemma Flatten(kb: Path, kc: Path, kh: Path, h1: Path, h2: Path, h3: Path, h4: Path,
                ku: Path, u1: Path, kd: Path, d1: Path)
    ensures var f, dir := Node.File([]), Directory;
      map[kb := f] + (map[kc := f] + (map[kh := dir] + map[h1 := f, h2 := f, h3 := f, h4 := f]
        + (map[ku := dir] + map[u1 := f] + (map[kd := dir] + map[d1 := f] + map[]))))
      == map[kb := f, kc := f, kh := dir, h1 := f, h2 := f, h3 := f, h4 := f,
             ku := dir, u1 := f, kd := dir, d1 := f]
  {
    var f, dir := Node.File([]), Directory;
    var e: map<Path, Node> := map[];
    // the innermost package, data
    var t5 := map[kd := dir] + map[d1 := f];
    Single(map[kd := dir], d1, f);
    assert t5 + e == t5;
    // utils, then data
    var t4 := map[ku := dir] + map[u1 := f] + t5;
    Single(map[ku := dir], u1, f);
    UnionUpdate(map[ku := dir, u1 := f], map[kd := dir], d1, f);
    Single(map[ku := dir, u1 := f], kd, dir);
    assert t4 == map[ku := dir, u1 := f, kd := dir, d1 := f];
    // handlers and its four files, then utils and data
    var hm := map[kh := dir] + map[h1 := f, h2 := f, h3 := f, h4 := f];
    AddFour(map[kh := dir], h1, h2, h3, h4, f);
    // config.py, then bot.py
    var t3 := hm + t4;
    Single(map[kb := f], kc, f);
    Assoc(map[kc := f], hm, t4);
    Assoc(map[kb := f], map[kc := f] + hm, t4);
    Assoc(map[kb := f], map[kc := f], hm);
    AddFourAfter(map[kb := f, kc := f], kh, h1, h2, h3, h4);
    AddMixed(map[kb := f, kc := f, kh := dir, h1 := f, h2 := f, h3 := f, h4 := f], ku, u1, kd, d1);
  }

  lemma AddFour(m: map<Path, Node>, a: Path, b: Path, c: Path, d: Path, v: Node)
    ensures m + map[a := v, b := v, c := v, d := v] == m[a := v][b := v][c := v][d := v]
  {
    UnionUpdate(m, map[a := v, b := v, c := v], d, v);
    UnionUpdate(m, map[a := v, b := v], c, v);
    UnionUpdate(m, map[a := v], b, v);
    Single(m, a, v);
  }

  /** m followed by a directory with one file, then another directory with one file. */
  lemma AddMixed(m: map<Path, Node>, ku: Path, u1: Path, kd: Path, d1: Path)
    ensures var f, dir := Node.File([]), Directory;
      m + map[ku := dir, u1 := f, kd := dir, d1 := f] == m[ku := dir][u1 := f][kd := dir][d1 := f]
  {
    var f, dir := Node.File([]), Directory;
    UnionUpdate(m, map[ku := dir, u1 := f, kd := dir], d1, f);
    UnionUpdate(m, map[ku := dir, u1 := f], kd, dir);
    UnionUpdate(m, map[ku := dir], u1, f);
    Single(m, ku, dir);
  }

  /** m followed by a directory with four files. */
  lemma AddFourAfter(m: map<Path, Node>, kh: Path, h1: Path, h2: Path, h3: Path, h4: Path)
    ensures var f, dir := Node.File([]), Directory;
      m + (map[kh := dir] + map[h1 := f, h2 := f, h3 := f, h4 := f])
        == m[kh := dir][h1 := f][h2 := f][h3 := f][h4 := f]
  {
    var f, dir := Node.File([]), Directory;
    AddFour(map[kh := dir], h1, h2, h3, h4, f);
    UnionUpdate(m, map[kh := dir][h1 := f][h2 := f][h3 := f], h4, f);
    UnionUpdate(m, map[kh := dir][h1 := f][h2 := f], h3, f);
    UnionUpdate(m, map[kh := dir][h1 := f], h2, f);
    UnionUpdate(m, map[kh := dir], h1, f);
    Single(m, kh, dir);
  }

  /** Extending a path one name at a time gives the two-name paths of the template. */
  lemma EntryPaths(r: Path)
    ensures forall a: string, b: string {:trigger r + [a] + [b]} :: r + [a] + [b] == r + [a, b]
  {
    forall a: string, b: string ensures r + [a] + [b] == r + [a, b] {
      assert [a] + [b] == [a, b];
    }
  }
}
