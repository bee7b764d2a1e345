/** Character classes and the Python string operations the tree-text core relies on:
    str.strip(), str.replace(pat, ''), str.split(sep), '\n'.join and file.readlines(). */
module Text {

  /** The characters counted as indentation: the vertical bar, the tee, the corner,
      the space and the horizontal bar. */
  predicate IsGlyph(c: char) {
    c == '│' || c == '├' || c == '└' || c == ' ' || c == '─'
  }

  /** The characters Python's str.isspace() accepts, which str.strip() removes. */
  predicate IsSpace(c: char) {
    ('\U{9}' <= c <= '\U{D}') || ('\U{1C}' <= c <= ' ') || c == '\U{85}' || c == '\U{A0}'
    || c == '\U{1680}' || ('\U{2000}' <= c <= '\U{200A}') || c == '\U{2028}' || c == '\U{2029}'
    || c == '\U{202F}' || c == '\U{205F}' || c == '\U{3000}'
  }

  predicate AllSpace(s: string) {
    forall i :: 0 <= i < |s| ==> IsSpace(s[i])
  }

  // ----- the leading glyph run -----

  /** Length of the longest leading run of indentation glyphs. */
  function LeadRun(s: string): nat {
    if s != [] && IsGlyph(s[0]) then 1 + LeadRun(s[1..]) else 0
  }

  /** The run is a prefix of glyphs that stops at the end or at the first other character. */
  lemma {:induction false} LeadRunFacts(s: string)
    ensures LeadRun(s) <= |s|
    ensures forall i :: 0 <= i < LeadRun(s) ==> IsGlyph(s[i])
    ensures LeadRun(s) < |s| ==> !IsGlyph(s[LeadRun(s)])
    decreases |s|
  {
    if s != [] && IsGlyph(s[0]) {
      var t := s[1..];
      LeadRunFacts(t);
      assert forall i :: 0 < i <= |t| ==> s[i] == t[i - 1];
    }
  }

  /** A glyph prefix that stops at the end or at another character is the run. */
  lemma {:induction false} LeadRunUnique(s: string, n: nat)
    requires n <= |s|
    requires forall i :: 0 <= i < n ==> IsGlyph(s[i])
    requires n < |s| ==> !IsGlyph(s[n])
    ensures LeadRun(s) == n
    decreases n
  {
    if n > 0 {
      var t := s[1..];
      assert forall i :: 0 <= i < n - 1 ==> t[i] == s[i + 1];
      assert n - 1 < |t| ==> t[n - 1] == s[n];
      LeadRunUnique(t, n - 1);
    }
  }

  /** A block of glyphs in front of a string lengthens the run by exactly its size. */
  lemma LeadRunAfterGlyphs(a: string, b: string)
    requires forall i :: 0 <= i < |a| ==> IsGlyph(a[i])
    ensures LeadRun(a + b) == |a| + LeadRun(b)
  {
    LeadRunFacts(b);
    var n := |a| + LeadRun(b);
    assert forall i :: |a| <= i < |a| + |b| ==> (a + b)[i] == b[i - |a|];
    LeadRunUnique(a + b, n);
  }

  /** A character that is no glyph, added at the end, does not change the run. */
  lemma LeadRunSnoc(s: string, c: char)
    requires !IsGlyph(c)
    ensures LeadRun(s + [c]) == LeadRun(s)
  {
    LeadRunFacts(s);
    assert forall i :: 0 <= i < |s| ==> (s + [c])[i] == s[i];
    assert (s + [c])[|s|] == c;
    LeadRunUnique(s + [c], LeadRun(s));
  }

  // ----- str.strip() -----

  function StripLeft(s: string): string {
    if s != [] && IsSpace(s[0]) then StripLeft(s[1..]) else s
  }

  function StripRight(s: string): string {
    if s != [] && IsSpace(s[|s| - 1]) then StripRight(s[..|s| - 1]) else s
  }

  /** str.strip(): s without its leading and trailing whitespace. */
  function Strip(s: string): string {
    StripRight(StripLeft(s))
  }

  /** The left strip is a suffix that starts after whitespace only, at a non-space. */
  lemma {:induction false} StripLeftFacts(s: string)
    ensures var r := StripLeft(s);
      |r| <= |s| && r == s[|s| - |r|..]
      && (forall i :: 0 <= i < |s| - |r| ==> IsSpace(s[i]))
      && (r != [] ==> !IsSpace(r[0]))
    decreases |s|
  {
    if s != [] && IsSpace(s[0]) {
      var t := s[1..];
      StripLeftFacts(t);
      var r := StripLeft(t);
      assert t[|t| - |r|..] == s[|s| - |r|..];
      assert forall i :: 0 < i < |s| ==> s[i] == t[i - 1];
    } else {
      assert s[0..] == s;
    }
  }

  /** The right strip is a prefix that ends before whitespace only, at a non-space. */
  lemma {:induction false} StripRightFacts(s: string)
    ensures var r := StripRight(s);
      |r| <= |s| && r == s[..|r|]
      && (forall i :: |r| <= i < |s| ==> IsSpace(s[i]))
      && (r != [] ==> !IsSpace(r[|r| - 1]))
    decreases |s|
  {
    if s != [] && IsSpace(s[|s| - 1]) {
      var t := s[..|s| - 1];
      StripRightFacts(t);
      var r := StripRight(t);
      assert t[..|r|] == s[..|r|];
      assert forall i :: 0 <= i < |t| ==> s[i] == t[i];
    } else {
      assert s[..|s|] == s;
    }
  }

  /** strip() gives the empty string exactly for all-whitespace input, and otherwise a
      string that neither starts nor ends with whitespace. */
  lemma StripFacts(s: string)
    ensures |Strip(s)| <= |s|
    ensures Strip(s) == [] <==> AllSpace(s)
    ensures Strip(s) != [] ==> !IsSpace(Strip(s)[0]) && !IsSpace(Strip(s)[|Strip(s)| - 1])
  {
    var l := StripLeft(s);
    var r := StripRight(l);
    StripLeftFacts(s);
    StripRightFacts(l);
    if l != [] {
      assert s[|s| - |l|] == l[0];
    }
    assert r != [] ==> r[0] == l[0];
  }

  /** strip() only deletes: every character it keeps was in s. */
  lemma StripKeeps(s: string)
    ensures forall i :: 0 <= i < |Strip(s)| ==> Strip(s)[i] in s
  {
    StripLeftFacts(s);
    var l := StripLeft(s);
    StripRightFacts(l);
    var r := StripRight(l);
    forall i | 0 <= i < |r| ensures r[i] in s {
      assert r[i] == l[i];
      assert l[i] == s[|s| - |l| + i];
    }
  }

  /** Stripping a string padded with whitespace on both sides gives back the core. */
  lemma StripPadded(a: string, b: string, c: string)
    requires AllSpace(a) && AllSpace(c)
    requires b != [] && !IsSpace(b[0]) && !IsSpace(b[|b| - 1])
    ensures Strip(a + b + c) == b
  {
    assert a + b + c == a + (b + c);
    StripLeftPadded(a, b + c);
    StripRightPadded(b, c);
  }

  lemma {:induction false} StripLeftPadded(a: string, t: string)
    requires AllSpace(a) && t != [] && !IsSpace(t[0])
    ensures StripLeft(a + t) == t
    decreases |a|
  {
    if a != [] {
      assert (a + t)[1..] == a[1..] + t;
      StripLeftPadded(a[1..], t);
    } else {
      assert a + t == t;
    }
  }

  lemma {:induction false} StripRightPadded(t: string, c: string)
    requires AllSpace(c) && t != [] && !IsSpace(t[|t| - 1])
    ensures StripRight(t + c) == t
    decreases |c|
  {
    if c != [] {
      var u := t + c;
      assert u[..|u| - 1] == t + c[..|c| - 1];
      StripRightPadded(t, c[..|c| - 1]);
    } else {
      assert t + c == t;
    }
  }

  /** A whitespace character appended at the end is removed again by strip(). */
  lemma StripSnocSpace(s: string, c: char)
    requires IsSpace(c)
    ensures Strip(s + [c]) == Strip(s)
  {
    StripLeftSnoc(s, c);
    var l := StripLeft(s);
    if AllSpace(s) {
      StripFacts(s);
    } else {
      assert (l + [c])[..|l|] == l;
    }
  }

  lemma {:induction false} StripLeftSnoc(s: string, c: char)
    requires IsSpace(c)
    ensures StripLeft(s + [c]) == if AllSpace(s) then [] else StripLeft(s) + [c]
    decreases |s|
  {
    if s == [] {
      assert [c][1..] == [];
    } else if IsSpace(s[0]) {
      assert (s + [c])[1..] == s[1..] + [c];
      StripLeftSnoc(s[1..], c);
      assert AllSpace(s) <==> AllSpace(s[1..]) by {
        assert forall i :: 0 < i < |s| ==> s[i] == s[1..][i - 1];
      }
    }
  }

  // ----- str.replace(pat, '') -----

  /** True when pat occurs in s as a contiguous piece. */
  predicate Occurs(s: string, pat: string) {
    |s| >= |pat| && (s[..|pat|] == pat || Occurs(s[1..], pat))
  }

  /** str.replace(pat, ''): one left-to-right scan that deletes every non-overlapping
      occurrence of pat; text that only becomes an occurrence after a deletion stays. */
  function Remove(s: string, pat: string): string
    requires pat != []
    decreases |s|
  {
    if |s| < |pat| then s
    else if s[..|pat|] == pat then Remove(s[|pat|..], pat)
    else [s[0]] + Remove(s[1..], pat)
  }

  /** Removal only deletes: the result is no longer, every character left was in s, and
      a one-character pattern is gone altogether. */
  lemma {:induction false} RemoveFacts(s: string, pat: string)
    requires pat != []
    ensures |Remove(s, pat)| <= |s|
    ensures forall i :: 0 <= i < |Remove(s, pat)| ==> Remove(s, pat)[i] in s
    ensures |pat| == 1 ==> pat[0] !in Remove(s, pat)
    decreases |s|
  {
    if |s| >= |pat| {
      if s[..|pat|] == pat {
        RemoveFacts(s[|pat|..], pat);
        assert forall c :: c in s[|pat|..] ==> c in s;
      } else {
        RemoveFacts(s[1..], pat);
        assert forall c :: c in s[1..] ==> c in s;
        assert |pat| == 1 ==> s[..1] == [s[0]];
      }
    }
  }

  /** Without an occurrence of pat, removing pat changes nothing. */
  lemma {:induction false} RemoveAbsent(s: string, pat: string)
    requires pat != [] && !Occurs(s, pat)
    ensures Remove(s, pat) == s
    decreases |s|
  {
    if |s| >= |pat| {
      RemoveAbsent(s[1..], pat);
      assert [s[0]] + s[1..] == s;
    }
  }

  /** Characters that cannot begin pat pass through unchanged ahead of the rest. */
  lemma {:induction false} RemoveAfterFree(a: string, b: string, pat: string)
    requires pat != []
    requires forall i :: 0 <= i < |a| ==> a[i] != pat[0]
    ensures Remove(a + b, pat) == a + Remove(b, pat)
    decreases |a|
  {
    if a != [] {
      var s := a + b;
      if |s| >= |pat| {
        assert s[..|pat|][0] == a[0] && a[0] != pat[0];
        assert s[..|pat|] != pat;
        assert Remove(s, pat) == [s[0]] + Remove(s[1..], pat);
        assert s[1..] == a[1..] + b;
        RemoveAfterFree(a[1..], b, pat);
        assert a == [a[0]] + a[1..];
      } else {
        assert Remove(b, pat) == b;
      }
    } else {
      assert a + b == b;
    }
  }

  /** An occurrence at the front is deleted. */
  lemma RemoveAtFront(b: string, pat: string)
    requires pat != []
    ensures Remove(pat + b, pat) == Remove(b, pat)
  {
    assert (pat + b)[..|pat|] == pat;
    assert (pat + b)[|pat|..] == b;
  }

  /** A first character that cannot start pat is kept at the front. */
  lemma RemoveKeepsFirst(c: char, b: string, pat: string)
    requires pat != [] && c != pat[0]
    ensures Remove([c] + b, pat) == [c] + Remove(b, pat)
  {
    assert ([c] + b)[1..] == b;
    if |[c] + b| >= |pat| {
      assert ([c] + b)[..|pat|][0] == c;
    }
  }

  /** A character that is not part of pat, appended at the end, is kept at the end. */
  lemma {:induction false} RemoveSnoc(s: string, c: char, pat: string)
    requires pat != [] && c !in pat
    ensures Remove(s + [c], pat) == Remove(s, pat) + [c]
    decreases |s|
  {
    var t := s + [c];
    if |s| < |pat| {
      if |t| >= |pat| {
        // t is exactly as long as pat but ends in c, which pat does not hold
        assert |t| == |pat| && t[|s|] == c && pat[|s|] != c;
        assert t[..|pat|] != pat;
        assert Remove(t[1..], pat) == t[1..];
        assert [t[0]] + t[1..] == t;
      }
    } else {
      assert t[..|pat|] == s[..|pat|];
      if s[..|pat|] == pat {
        assert t[|pat|..] == s[|pat|..] + [c];
        RemoveSnoc(s[|pat|..], c, pat);
      } else {
        assert t[1..] == s[1..] + [c];
        RemoveSnoc(s[1..], c, pat);
      }
    }
  }

  /** If no character of s is pat's first character, pat does not occur in s. */
  lemma {:induction false} AbsentByFirst(s: string, pat: string)
    requires pat != []
    requires forall i :: 0 <= i < |s| ==> s[i] != pat[0]
    ensures !Occurs(s, pat)
    decreases |s|
  {
    if |s| >= |pat| {
      assert s[..|pat|][0] == s[0];
      AbsentByFirst(s[1..], pat);
    }
  }

  /** A one-character pattern is removed from each part of a concatenation separately. */
  lemma {:induction false} RemoveCharSplit(a: string, b: string, pat: string)
    requires |pat| == 1
    ensures Remove(a + b, pat) == Remove(a, pat) + Remove(b, pat)
    decreases |a|
  {
    if a == [] {
      assert a + b == b;
    } else {
      var s := a + b;
      assert s[..1] == a[..1] && s[1..] == a[1..] + b;
      RemoveCharSplit(a[1..], b, pat);
    }
  }

  /** A character that is absent does not occur as a one-character pattern. */
  lemma CharAbsent(s: string, c: char)
    requires c !in s
    ensures !Occurs(s, [c])
  {
    AbsentByFirst(s, [c]);
  }

  // ----- str.split(sep), sep.join(parts), readlines() -----

  /** Index of the first sep in s, or |s| when there is none. */
  function IndexOf(s: string, sep: char): (i: nat)
    ensures i <= |s|
    ensures i < |s| ==> s[i] == sep
    ensures forall j :: 0 <= j < i ==> s[j] != sep
  {
    if s == [] || s[0] == sep then 0 else 1 + IndexOf(s[1..], sep)
  }

  /** str.split(sep): the pieces between separators; always at least one piece. */
  function Split(s: string, sep: char): (r: seq<string>)
    ensures |r| >= 1
    decreases |s|
  {
    var i := IndexOf(s, sep);
    if i == |s| then [s] else [s[..i]] + Split(s[i + 1..], sep)
  }

  /** sep.join(parts). */
  function Join(parts: seq<string>, sep: char): string {
    if parts == [] then []
    else if |parts| == 1 then parts[0]
    else parts[0] + [sep] + Join(parts[1..], sep)
  }

  /** Joining the pieces of a split gives back the text. */
  lemma {:induction false} JoinSplit(s: string, sep: char)
    ensures Join(Split(s, sep), sep) == s
    decreases |s|
  {
    var i := IndexOf(s, sep);
    if i < |s| {
      JoinSplit(s[i + 1..], sep);
      JoinSplitCons(s[..i], s[i + 1..], sep);
      SliceAround(s, i);
    }
  }

  /** The step of JoinSplit: a separator-free piece, the separator, and a rest that
      rejoins to itself. */
  lemma JoinSplitCons(a: string, rest: string, sep: char)
    requires sep !in a && Join(Split(rest, sep), sep) == rest
    ensures Join(Split(a + [sep] + rest, sep), sep) == a + [sep] + rest
  {
    SplitCons(a, rest, sep);
    JoinCons(a, Split(rest, sep), sep);
  }

  lemma SliceAround<T>(s: seq<T>, i: nat)
    requires i < |s|
    ensures s[..i] + [s[i]] + s[i + 1..] == s
  {
  }

  lemma JoinCons(a: string, ps: seq<string>, sep: char)
    requires ps != []
    ensures Join([a] + ps, sep) == a + [sep] + Join(ps, sep)
  {
    assert ([a] + ps)[1..] == ps;
  }

  /** Splitting joined pieces gives back the pieces, when none holds the separator. */
  lemma {:induction false} SplitJoin(parts: seq<string>, sep: char)
    requires parts != []
    requires forall k :: 0 <= k < |parts| ==> sep !in parts[k]
    ensures Split(Join(parts, sep), sep) == parts
    decreases |parts|
  {
    if |parts| == 1 {
      IndexOfAbsent(parts[0], sep);
    } else {
      SplitJoin(parts[1..], sep);
      SplitCons(parts[0], Join(parts[1..], sep), sep);
      assert [parts[0]] + parts[1..] == parts;
    }
  }

  /** A separator-free piece followed by the separator splits off as the first piece. */
  lemma SplitCons(a: string, b: string, sep: char)
    requires sep !in a
    ensures Split(a + [sep] + b, sep) == [a] + Split(b, sep)
  {
    var s := a + [sep] + b;
    IndexOfAfter(a, [sep] + b, sep);
    assert s == a + ([sep] + b);
    assert s[..|a|] == a;
    assert s[|a| + 1..] == b;
  }

  lemma IndexOfAbsent(s: string, sep: char)
    requires sep !in s
    ensures IndexOf(s, sep) == |s|
  {
  }

  lemma IndexOfAfter(a: string, b: string, sep: char)
    requires sep !in a && b != [] && b[0] == sep
    ensures IndexOf(a + b, sep) == |a|
  {
    var i := IndexOf(a + b, sep);
    assert (a + b)[|a|] == sep;
  }

  /** The concatenation of a sequence of sequences. */
  function Concat<T>(ss: seq<seq<T>>): seq<T> {
    if ss == [] then [] else ss[0] + Concat(ss[1..])
  }

  /** file.readlines(): the lines of s, each keeping its terminating '\n'. */
  function ReadLines(s: string): seq<string>
    decreases |s|
  {
    if s == [] then []
    else
      var i := IndexOf(s, '\n');
      if i == |s| then [s] else [s[..i + 1]] + ReadLines(s[i + 1..])
  }

  /** The shape of the lines readlines() returns: none is empty, every line but the last
      ends in '\n', and no line holds a '\n' before its last character. */
  predicate LinesShaped(r: seq<string>) {
    (forall k :: 0 <= k < |r| ==> r[k] != [])
    && (forall k :: 0 <= k < |r| - 1 ==> r[k][|r[k]| - 1] == '\n')
    && (forall k :: 0 <= k < |r| ==> '\n' !in r[k][..|r[k]| - 1])
  }

  /** The lines of readlines() concatenate back to the text and have that shape. */
  lemma {:induction false} ReadLinesFacts(s: string)
    ensures Concat(ReadLines(s)) == s
    ensures LinesShaped(ReadLines(s))
    decreases |s|
  {
    if s != [] {
      var i := IndexOf(s, '\n');
      if i == |s| {
        ReadLinesLast(s);
        assert Concat([s]) == s + Concat([]);
      } else {
        var a, rest := s[..i], s[i + 1..];
        SliceAround(s, i);
        assert s == a + "\n" + rest;
        ReadLinesCons(a, rest);
        ReadLinesFacts(rest);
        ShapedCons(a + "\n", ReadLines(rest));
        ConcatCons(a + "\n", ReadLines(rest));
      }
    }
  }

  lemma ShapedCons(h: string, r: seq<string>)
    requires h != [] && h[|h| - 1] == '\n' && '\n' !in h[..|h| - 1] && LinesShaped(r)
    ensures LinesShaped([h] + r)
  {
    assert forall k :: 0 < k < |[h] + r| ==> ([h] + r)[k] == r[k - 1];
  }

  lemma ConcatCons<T>(h: seq<T>, r: seq<seq<T>>)
    ensures Concat([h] + r) == h + Concat(r)
  {
    assert ([h] + r)[1..] == r;
  }

  /** Text with no line at all is the empty text. */
  lemma ReadLinesEmpty(s: string)
    ensures ReadLines(s) == [] <==> s == []
  {
  }

  /** A separator-free line followed by '\n' is read as the first line. */
  lemma ReadLinesCons(a: string, rest: string)
    requires '\n' !in a
    ensures ReadLines(a + "\n" + rest) == [a + "\n"] + ReadLines(rest)
  {
    var s := a + "\n" + rest;
    IndexOfAfter(a, "\n" + rest, '\n');
    assert s == a + ("\n" + rest);
    assert s[..|a| + 1] == a + "\n";
    assert s[|a| + 1..] == rest;
  }

  /** A last line without '\n' is read as itself. */
  lemma ReadLinesLast(s: string)
    requires s != [] && '\n' !in s
    ensures ReadLines(s) == [s]
    ensures Split(s, '\n') == [s]
  {
    IndexOfAbsent(s, '\n');
  }
}
