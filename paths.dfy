/**
 * File names as the tools see them: `os.path.basename`, `PurePath.stem`,
 * `os.path.splitext`, `os.path.join`, the `glob` pattern "*.<ext>" over a
 * directory listing, and `sorted` on path strings (code-point order).
 */
module Paths {
  import opened Wrappers
  import opened Text

  predicate NoSlash(s: string) {
    forall i :: 0 <= i < |s| ==> s[i] != '/'
  }

  /** `os.path.basename`: everything after the last '/'. */
  function Basename(p: string): string {
    p[FindLast(p, '/') + 1..]
  }

  /** The base name is the end of the path after its last '/', so it has no '/'. */
  lemma BasenameSpec(p: string)
    ensures NoSlash(Basename(p)) && EndsWith(p, Basename(p))
    ensures NoSlash(p) ==> Basename(p) == p
  {
    FindLastSpec(p, '/');
    var k := FindLast(p, '/');
    var b := p[k + 1..];
    assert Basename(p) == b;
    forall i | 0 <= i < |b| ensures b[i] != '/' {
      assert b[i] == p[k + 1 + i];
    }
    assert |p| - |b| == k + 1;
    assert EndsWith(p, b);
    if k >= 0 {
      assert p[k] == '/';
    } else {
      assert b == p;
    }
  }

  /**
   * `PurePath.stem`: the final component without its last suffix.  A dot in
   * first or last position of the name does not start a suffix, so ".txt"
   * and "a." are their own stems.
   */
  function Stem(p: string): string {
    var name := Basename(p);
    var i := FindLast(name, '.');
    if 0 < i < |name| - 1 then name[..i] else name
  }

  predicate AllDots(s: string) {
    forall i :: 0 <= i < |s| ==> s[i] == '.'
  }

  /**
   * `os.path.splitext`: splits before the last '.' of the final component,
   * unless every character before that dot in the component is a dot.
   */
  function SplitExt(p: string): (r: (string, string))
    ensures r.0 + r.1 == p
    ensures r.1 == [] || (r.1[0] == '.' && IsExtensionTail(r.1[1..]))
  {
    var sep := FindLast(p, '/');
    var dot := FindLast(p, '.');
    if dot > sep && !AllDots(p[sep + 1..dot]) then
      FindLastSpec(p, '/');
      FindLastSpec(p, '.');
      ExtensionAfterLastDot(p, sep, dot);
      (p[..dot], p[dot..])
    else (p, [])
  }

  /** Positions `j < i` in the final component with a '.' at `i` and another character at `j`. */
  predicate DotAfterOther(p: string, i: int, j: int) {
    0 <= j < i < |p| && p[i] == '.' && p[j] != '.' && NoSlash(p[j..])
  }

  /**
   * Which dot `splitext` cuts at: the extension is non-empty exactly when the
   * final component holds a '.' with some other character before it.
   */
  lemma SplitExtCuts(p: string)
    ensures SplitExt(p).1 != [] <==> exists i, j :: DotAfterOther(p, i, j)
  {
    var sep := FindLast(p, '/');
    var dot := FindLast(p, '.');
    SplitExtCondition(p);
    if dot > sep && !AllDots(p[sep + 1..dot]) {
      var m :| 0 <= m < |p[sep + 1..dot]| && p[sep + 1..dot][m] != '.';
      CutHasWitness(p, sep + 1 + m);
      assert DotAfterOther(p, dot, sep + 1 + m);
    } else if exists i, j :: DotAfterOther(p, i, j) {
      var i, j :| DotAfterOther(p, i, j);
      WitnessGivesCut(p, i, j);
    }
  }

  /** The extension is non-empty exactly when the source's guard holds. */
  lemma SplitExtCondition(p: string)
    ensures var sep, dot := FindLast(p, '/'), FindLast(p, '.');
      SplitExt(p).1 != [] <==> dot > sep && !AllDots(p[sep + 1..dot])
  {
  }

  /** A non-dot after the last slash and before the last dot is a witness. */
  lemma CutHasWitness(p: string, j: int)
    requires FindLast(p, '/') < j < FindLast(p, '.') && p[j] != '.'
    ensures NoSlash(p[j..])
  {
    FindLastSpec(p, '/');
    forall k | 0 <= k < |p[j..]| ensures p[j..][k] != '/' {
      assert p[j..][k] == p[j + k];
    }
  }

  /** A witness lies after the last slash and before the last dot. */
  lemma WitnessGivesCut(p: string, i: int, j: int)
    requires 0 <= j < i < |p| && p[i] == '.' && NoSlash(p[j..])
    ensures FindLast(p, '/') < j < i <= FindLast(p, '.')
  {
    FindLastSpec(p, '/');
    FindLastSpec(p, '.');
  }

  /** No '.' and no '/': what follows the dot of an extension. */
  predicate IsExtensionTail(s: string) {
    forall i :: 0 <= i < |s| ==> s[i] != '.' && s[i] != '/'
  }

  lemma ExtensionAfterLastDot(p: string, sep: int, dot: int)
    requires sep == FindLast(p, '/') && dot == FindLast(p, '.') && sep < dot
    ensures IsExtensionTail(p[dot + 1..])
  {
    var t := p[dot + 1..];
    forall i | 0 <= i < |t| ensures t[i] != '.' && t[i] != '/' {
      assert t[i] == p[dot + 1 + i];
    }
  }

  /** `os.path.join` of a directory and one more component. */
  function Join(dir: string, name: string): (r: string)
    ensures EndsWith(r, name)
  {
    if StartsWith(name, "/") then name
    else if dir == [] || EndsWith(dir, "/") then dir + name
    else dir + "/" + name
  }

  /** In `stem.ext` the last '.' is the one after the stem, and there is no '/'. */
  lemma DotBeforeExtension(stem: string, ext: string)
    requires NoSlash(stem) && IsExtensionTail(ext)
    ensures var name := stem + "." + ext;
      NoSlash(name) && FindLast(name, '/') == -1 && FindLast(name, '.') == |stem|
  {
    var name := stem + "." + ext;
    assert NoSlash(name) by {
      forall i | 0 <= i < |name| ensures name[i] != '/' {
        if i < |stem| { assert name[i] == stem[i]; }
        else if i > |stem| { assert name[i] == ext[i - |stem| - 1]; }
      }
    }
    FindLastSpec(name, '/');
    FindLastSpec(name, '.');
    var dot := FindLast(name, '.');
    assert name[|stem|] == '.';
    assert dot >= |stem|;
    assert forall j :: |stem| < j < |name| ==> name[j] == ext[j - |stem| - 1];
    assert dot <= |stem|;
  }

  /** The stem of `dir/stem.ext` is `stem`. */
  lemma StemOfJoin(dir: string, stem: string, ext: string)
    requires stem != [] && NoSlash(stem) && ext != [] && IsExtensionTail(ext)
    ensures Stem(Join(dir, stem + "." + ext)) == stem
  {
    var name := stem + "." + ext;
    DotBeforeExtension(stem, ext);
    BasenameOfJoin(dir, name);
    var dot := FindLast(name, '.');
    assert 0 < dot == |stem| < |name| - 1;
    assert Stem(Join(dir, name)) == name[..dot];
    assert name[..|stem|] == stem;
  }

  /** Joining a plain file name to a directory keeps that name as the base name. */
  lemma BasenameOfJoin(dir: string, name: string)
    requires name != [] && NoSlash(name)
    ensures Basename(Join(dir, name)) == name
  {
    var p := Join(dir, name);
    JoinShape(dir, name);
    LastSlashAt(p, |p| - |name|);
  }

  /** The last '/' of a path is just before its slash-free tail `p[j..]`, when a '/' is there. */
  lemma LastSlashAt(p: string, j: nat)
    requires j <= |p| && NoSlash(p[j..]) && (j == 0 || p[j - 1] == '/')
    ensures FindLast(p, '/') == j - 1
  {
    var k := FindLast(p, '/');
    FindLastSpec(p, '/');
    forall m | j <= m < |p| ensures p[m] != '/' {
      assert p[m] == p[j..][m - j];
    }
    if j > 0 {
      assert k >= j - 1;
    }
  }

  /** A joined path ends with the name, right after a '/' unless the name is all of it. */
  lemma JoinShape(dir: string, name: string)
    requires name != [] && NoSlash(name)
    ensures var p := Join(dir, name);
      |name| <= |p| && p[|p| - |name|..] == name && (|p| == |name| || p[|p| - |name| - 1] == '/')
  {
    var p := Join(dir, name);
    assert name[0] != '/';
    if dir == [] {
      assert p == name;
    } else if EndsWith(dir, "/") {
      assert p == dir + name;
      assert p[|dir| - 1] == dir[|dir| - 1] == dir[|dir| - 1..][0] == '/';
    } else {
      assert p == dir + "/" + name;
      assert p[|dir|] == '/';
    }
  }

  /**
   * Whether `glob` with the pattern "*.<ext>" returns a directory entry:
   * the name ends with "." + ext, and, as for every pattern starting with
   * '*', a name starting with '.' is hidden.
   */
  predicate MatchesExtension(name: string, ext: string) {
    name != [] && name[0] != '.' && EndsWith(name, "." + ext)
  }

  /** `glob.glob(os.path.join(dir, "*." + ext))` over the entries of `dir`, in listing order. */
  function Glob(dir: string, entries: seq<string>, ext: string): seq<string> {
    if entries == [] then []
    else
      var rest := Glob(dir, entries[1..], ext);
      if MatchesExtension(entries[0], ext) then [Join(dir, entries[0])] + rest else rest
  }

  /** The pattern yields exactly the joined paths of the visible entries with the extension, no more paths than entries. */
  lemma {:induction false} GlobSpec(dir: string, entries: seq<string>, ext: string)
    ensures |Glob(dir, entries, ext)| <= |entries|
    ensures forall p :: p in Glob(dir, entries, ext) <==> exists e :: e in entries && MatchesExtension(e, ext) && p == Join(dir, e)
  {
    if entries != [] {
      GlobSpec(dir, entries[1..], ext);
      assert forall e :: e in entries[1..] ==> e in entries;
      assert forall e :: e in entries ==> e == entries[0] || e in entries[1..];
    }
  }

  /** The pattern matches nothing exactly when no entry has the extension. */
  lemma GlobEmpty(dir: string, entries: seq<string>, ext: string)
    ensures Glob(dir, entries, ext) == [] ==> forall e :: e in entries ==> !MatchesExtension(e, ext)
    ensures (forall e :: e in entries ==> !MatchesExtension(e, ext)) ==> Glob(dir, entries, ext) == []
  {
    GlobSpec(dir, entries, ext);
    if e :| e in entries && MatchesExtension(e, ext) {
      assert Join(dir, e) in Glob(dir, entries, ext);
    }
  }

  /** Python's `<=` on strings: lexicographic order of code points. */
  predicate LexLe(a: string, b: string)
    decreases |a|
  {
    a == [] || (b != [] && (a[0] < b[0] || (a[0] == b[0] && LexLe(a[1..], b[1..]))))
  }

  lemma {:induction false} LexLeReflexive(a: string)
    ensures LexLe(a, a)
    decreases |a|
  {
    if a != [] { LexLeReflexive(a[1..]); }
  }

  lemma {:induction false} LexLeTotal(a: string, b: string)
    ensures LexLe(a, b) || LexLe(b, a)
    decreases |a|
  {
    if a != [] && b != [] && a[0] == b[0] {
      LexLeTotal(a[1..], b[1..]);
    }
  }

  lemma {:induction false} LexLeTransitive(a: string, b: string, c: string)
    requires LexLe(a, b) && LexLe(b, c)
    ensures LexLe(a, c)
    decreases |a|
  {
    if a != [] && b != [] && c != [] && a[0] == b[0] == c[0] {
      LexLeTransitive(a[1..], b[1..], c[1..]);
    }
  }

  lemma {:induction false} LexLeAntisymmetric(a: string, b: string)
    requires LexLe(a, b) && LexLe(b, a)
    ensures a == b
    decreases |a|
  {
    if a != [] {
      LexLeAntisymmetric(a[1..], b[1..]);
      assert a == [a[0]] + a[1..] && b == [b[0]] + b[1..];
    }
  }

  predicate SortedNames(s: seq<string>) {
    forall i, j :: 0 <= i < j < |s| ==> LexLe(s[i], s[j])
  }

  function Insert(x: string, s: seq<string>): (r: seq<string>)
    requires SortedNames(s)
    ensures SortedNames(r)
    ensures multiset(r) == multiset(s) + multiset{x}
  {
    if s == [] then [x]
    else if LexLe(x, s[0]) then
      forall j | 0 <= j < |s| ensures LexLe(x, s[j]) {
        if j > 0 { LexLeTransitive(x, s[0], s[j]); }
      }
      ConsSorted(x, s);
      [x] + s
    else
      LexLeTotal(x, s[0]);
      SortedTail(s);
      var tail := Insert(x, s[1..]);
      var u := s[1..] + [x];
      assert multiset(u) == multiset(tail);
      forall k | 0 <= k < |u| ensures LexLe(s[0], u[k]) {
        if k < |s| - 1 { assert u[k] == s[k + 1]; }
      }
      BoundByMultiset(s[0], tail, u);
      ConsSorted(s[0], tail);
      assert s == [s[0]] + s[1..];
      [s[0]] + tail
  }

  /** A sorted list stays sorted with a lower bound of all its elements put in front. */
  lemma ConsSorted(h: string, t: seq<string>)
    requires SortedNames(t)
    requires forall j :: 0 <= j < |t| ==> LexLe(h, t[j])
    ensures SortedNames([h] + t)
  {
    var r := [h] + t;
    forall i, j | 0 <= i < j < |r| ensures LexLe(r[i], r[j]) {
      assert r[j] == t[j - 1];
      if i > 0 { assert r[i] == t[i - 1]; }
    }
  }

  /** A lower bound of every element of `u` bounds every element of a rearrangement of `u`. */
  lemma BoundByMultiset(h: string, t: seq<string>, u: seq<string>)
    requires multiset(t) == multiset(u)
    requires forall k :: 0 <= k < |u| ==> LexLe(h, u[k])
    ensures forall j :: 0 <= j < |t| ==> LexLe(h, t[j])
  {
    forall j | 0 <= j < |t| ensures LexLe(h, t[j]) {
      assert t[j] in multiset(u);
      var k :| 0 <= k < |u| && u[k] == t[j];
    }
  }

  /** `sorted` on a list of path strings. */
  function SortNames(s: seq<string>): (r: seq<string>)
    ensures SortedNames(r)
    ensures multiset(r) == multiset(s)
  {
    if s == [] then []
    else
      assert s == [s[0]] + s[1..];
      Insert(s[0], SortNames(s[1..]))
  }

  lemma SortedTail(s: seq<string>)
    requires SortedNames(s) && s != []
    ensures SortedNames(s[1..])
  {
    forall i, j | 0 <= i < j < |s| - 1 ensures LexLe(s[1..][i], s[1..][j]) {
      assert s[1..][i] == s[i + 1] && s[1..][j] == s[j + 1];
    }
  }

  lemma FirstIsLeast(s: seq<string>, k: int)
    requires SortedNames(s) && 0 <= k < |s|
    ensures LexLe(s[0], s[k])
  {
    if k == 0 { LexLeReflexive(s[0]); }
  }

  /** Two sorted arrangements of the same strings are equal, so `SortNames` is Python's `sorted`. */
  lemma {:induction false} SortedUnique(a: seq<string>, b: seq<string>)
    requires SortedNames(a) && SortedNames(b)
    requires multiset(a) == multiset(b)
    ensures a == b
    decreases |a|
  {
    assert |a| == |multiset(a)| == |multiset(b)| == |b|;
    if a != [] {
      SameLeast(a, b);
      DropFirst(a);
      DropFirst(b);
      SortedTail(a);
      SortedTail(b);
      SortedUnique(a[1..], b[1..]);
      assert a == [a[0]] + a[1..] && b == [b[0]] + b[1..];
    }
  }

  /** Two sorted arrangements of the same strings start with the same string. */
  lemma SameLeast(a: seq<string>, b: seq<string>)
    requires SortedNames(a) && SortedNames(b)
    requires multiset(a) == multiset(b) && a != []
    ensures b != [] && a[0] == b[0]
  {
    assert a[0] in multiset(b);
    var i :| 0 <= i < |b| && b[i] == a[0];
    assert b[0] in multiset(a);
    var j :| 0 <= j < |a| && a[j] == b[0];
    FirstIsLeast(b, i);
    FirstIsLeast(a, j);
    LexLeAntisymmetric(a[0], b[0]);
  }

  lemma DropFirst(a: seq<string>)
    requires a != []
    ensures multiset(a[1..]) == multiset(a) - multiset{a[0]}
  {
    assert a == [a[0]] + a[1..];
  }
}
