/**
 * The pieces of Python's standard library that the ingestion code applies to
 * file names, with POSIX conventions (separator `/`, extension separator `.`):
 * `str.rfind`, `str.split`, `str.join`, `str.lstrip`, `str.replace`,
 * `os.path.basename`, `os.path.splitext` and the lexical part of
 * `pathlib.PurePosixPath` (parsing, `str()`, `.name`, `.relative_to`).
 */
module PathLib {
  import opened Wrappers

  const Sep: char := '/'
  const ExtSep: char := '.'

  // ---------------------------------------------------------------------
  // String methods
  // ---------------------------------------------------------------------

  /** `s.rfind(c)`: the index of the last `c` in `s`, or -1 when there is none. */
  function RFind(s: string, c: char): (r: int)
    ensures -1 <= r < |s|
    ensures r >= 0 ==> s[r] == c
    ensures forall j :: r < j < |s| ==> s[j] != c
  {
    if s == [] then -1
    else if s[|s| - 1] == c then |s| - 1
    else RFind(s[..|s| - 1], c)
  }

  /** `s.lstrip(c)` for a single character `c`: `s` without its leading run of `c`. */
  function LStrip(s: string, c: char): (r: string)
    ensures |r| <= |s| && s[|s| - |r|..] == r
    ensures forall i :: 0 <= i < |s| - |r| ==> s[i] == c
    ensures r == [] || r[0] != c
  {
    if s != [] && s[0] == c then LStrip(s[1..], c) else s
  }

  /** `s.replace(a, b)` for single characters `a` and `b`. */
  function ReplaceChar(s: string, a: char, b: char): (r: string)
    ensures |r| == |s|
    ensures forall i :: 0 <= i < |s| ==> r[i] == if s[i] == a then b else s[i]
    ensures a != b ==> a !in r
  {
    if s == [] then [] else [if s[0] == a then b else s[0]] + ReplaceChar(s[1..], a, b)
  }

  /** `s.split("/")`: the pieces between separators; there is always at least one, and joining them gives `s` back. */
  function Split(s: string): (pieces: seq<string>)
    ensures |pieces| >= 1
    ensures forall i :: 0 <= i < |pieces| ==> Sep !in pieces[i]
    ensures Join(pieces) == s
  {
    if s == [] then [""]
    else
      var rest := Split(s[1..]);
      assert rest == [rest[0]] + rest[1..];
      JoinCons(rest[0], rest[1..]);
      if s[0] == Sep then
        JoinCons("", rest);
        [""] + rest
      else
        JoinCons([s[0]] + rest[0], rest[1..]);
        [[s[0]] + rest[0]] + rest[1..]
  }

  /** `"/".join(parts)`. */
  function Join(parts: seq<string>): string {
    if parts == [] then ""
    else if |parts| == 1 then parts[0]
    else parts[0] + [Sep] + Join(parts[1..])
  }

  lemma JoinCons(a: string, rest: seq<string>)
    ensures Join([a] + rest) == if rest == [] then a else a + [Sep] + Join(rest)
  {
    assert ([a] + rest)[1..] == rest;
  }

  lemma {:induction false} SplitWithoutSep(a: string)
    requires Sep !in a
    ensures Split(a) == [a]
  {
    if a != [] {
      SplitWithoutSep(a[1..]);
      assert a[0] in a;
      assert [a[0]] + a[1..] == a;
    }
  }

  lemma {:induction false} SplitAtSep(a: string, b: string)
    requires Sep !in a
    ensures Split(a + [Sep] + b) == [a] + Split(b)
  {
    if a == [] {
      assert a + [Sep] + b == [Sep] + b;
    } else {
      var s := a + [Sep] + b;
      assert a[0] in a;
      assert s[0] == a[0] != Sep;
      assert s[1..] == a[1..] + [Sep] + b;
      SplitAtSep(a[1..], b);
      var rest := Split(s[1..]);
      assert rest[0] == a[1..] && rest[1..] == Split(b);
      assert Split(s) == [[s[0]] + rest[0]] + rest[1..];
      assert [a[0]] + a[1..] == a;
    }
  }

  /** Splitting undoes joining when no part contains a separator. */
  lemma {:induction false} SplitJoin(parts: seq<string>)
    requires |parts| >= 1
    requires forall i :: 0 <= i < |parts| ==> Sep !in parts[i]
    ensures Split(Join(parts)) == parts
  {
    if |parts| == 1 {
      SplitWithoutSep(parts[0]);
    } else {
      SplitJoin(parts[1..]);
      SplitAtSep(parts[0], Join(parts[1..]));
    }
  }

  // ---------------------------------------------------------------------
  // os.path
  // ---------------------------------------------------------------------

  /** `os.path.basename(p)`: everything after the last separator. */
  function Basename(p: string): (name: string)
    ensures Sep !in name
    ensures |name| <= |p| && p[|p| - |name|..] == name
    ensures |name| < |p| ==> p[|p| - |name| - 1] == Sep
  {
    p[RFind(p, Sep) + 1..]
  }

  /** The final component `name` has a dot preceded by some character other than a dot. */
  ghost predicate HasSuffix(name: string) {
    exists i, j :: 0 <= j < i < |name| && name[j] != ExtSep && name[i] == ExtSep
  }

  /**
   * `os.path.splitext(p)`: `(root, ext)` with `root + ext == p`. `ext` runs from the
   * last dot of the final component to the end, unless every character of that
   * component before the dot is itself a dot (".bashrc", "..md"), in which case
   * `ext` is empty.
   */
  function SplitExt(p: string): (parts: (string, string))
    ensures parts.0 + parts.1 == p
    ensures parts.1 != "" ==> parts.1[0] == ExtSep && ExtSep !in parts.1[1..] && Sep !in parts.1
  {
    var sepIndex := RFind(p, Sep);
    var dotIndex := RFind(p, ExtSep);
    if dotIndex > sepIndex && exists j | sepIndex < j < dotIndex :: p[j] != ExtSep then
      (p[..dotIndex], p[dotIndex..])
    else
      (p, "")
  }

  /** `SplitExt` finds an extension exactly when the final component has a suffix. */
  lemma SplitExtFindsSuffix(p: string)
    ensures SplitExt(p).1 != "" <==> HasSuffix(Basename(p))
  {
    var sepIndex := RFind(p, Sep);
    var dotIndex := RFind(p, ExtSep);
    var name := Basename(p);
    assert name == p[sepIndex + 1..];
    if dotIndex > sepIndex && exists j | sepIndex < j < dotIndex :: p[j] != ExtSep {
      var j :| sepIndex < j < dotIndex && p[j] != ExtSep;
      assert name[j - sepIndex - 1] != ExtSep && name[dotIndex - sepIndex - 1] == ExtSep;
    } else {
      assert SplitExt(p).1 == "";
      forall i, j | 0 <= j < i < |name| && name[j] != ExtSep
        ensures name[i] != ExtSep
      {
        assert name[i] == p[sepIndex + 1 + i] && name[j] == p[sepIndex + 1 + j];
      }
    }
  }

  /** An extension found by `SplitExt` loses exactly its one leading dot to `lstrip('.')`. */
  lemma ExtensionLosesOneDot(p: string)
    requires SplitExt(p).1 != ""
    ensures LStrip(SplitExt(p).1, ExtSep) == SplitExt(p).1[1..]
  {
    var ext := SplitExt(p).1;
    assert ext[1..] == [] || ext[1..][0] != ExtSep by {
      if ext[1..] != [] {
        assert ext[1..][0] in ext[1..];
      }
    }
  }

  // ---------------------------------------------------------------------
  // pathlib.PurePosixPath
  // ---------------------------------------------------------------------

  /** A component of a parsed path: non-empty, not ".", without a separator. */
  predicate IsPart(s: string) {
    s != "" && s != "." && Sep !in s
  }

  /** A parsed path: its root ("", "/" or, for exactly two leading slashes, "//") and its components. */
  datatype PurePath = PurePath(root: string, tail: seq<string>)

  predicate ValidPath(p: PurePath) {
    && (p.root == "" || p.root == "/" || p.root == "//")
    && forall i :: 0 <= i < |p.tail| ==> IsPart(p.tail[i])
  }

  /**
   * The root that `PurePosixPath(s)` gives: "" for a relative path, "//" for
   * exactly two leading slashes, "/" for one or three or more.
   */
  function RootOf(s: string): (r: string)
    ensures r == "" || r == "/" || r == "//"
    ensures |r| <= |s| && s[..|r|] == r
    ensures r == "" <==> s == "" || s[0] != Sep
    ensures r == "//" <==> |s| >= 2 && s[0] == Sep && s[1] == Sep && (|s| == 2 || s[2] != Sep)
    ensures |s| >= 3 && s[..3] == [Sep, Sep, Sep] ==> r == "/"
  {
    if |s| == 0 || s[0] != Sep then ""
    else if |s| >= 2 && s[1] == Sep && (|s| == 2 || s[2] != Sep) then "//"
    else "/"
  }

  /** Pieces of a split with the empty ones and "." left out. */
  function DropEmpty(pieces: seq<string>): (parts: seq<string>)
    requires forall i :: 0 <= i < |pieces| ==> Sep !in pieces[i]
    ensures forall i :: 0 <= i < |parts| ==> IsPart(parts[i])
    ensures (forall i :: 0 <= i < |pieces| ==> IsPart(pieces[i])) ==> parts == pieces
  {
    if pieces == [] then []
    else if pieces[0] == "" || pieces[0] == "." then DropEmpty(pieces[1..])
    else [pieces[0]] + DropEmpty(pieces[1..])
  }

  /** A single piece survives exactly when it is a component. */
  lemma DropEmptySingle(x: string)
    requires Sep !in x
    ensures DropEmpty([x]) == if IsPart(x) then [x] else []
  {
    assert [x][1..] == [];
  }

  /** Dropping works piece by piece: it is a filter, keeping the components in order. */
  lemma {:induction false} DropEmptyAppend(a: seq<string>, b: seq<string>)
    requires forall i :: 0 <= i < |a| ==> Sep !in a[i]
    requires forall i :: 0 <= i < |b| ==> Sep !in b[i]
    ensures DropEmpty(a + b) == DropEmpty(a) + DropEmpty(b)
  {
    if a == [] {
      assert a + b == b;
    } else {
      assert (a + b)[0] == a[0];
      assert (a + b)[1..] == a[1..] + b;
      DropEmptyAppend(a[1..], b);
    }
  }

  /** `PurePosixPath(s)`: redundant separators and "." components are dropped. */
  function ParsePath(s: string): (p: PurePath)
    ensures ValidPath(p)
  {
    PurePath(RootOf(s), DropEmpty(Split(s)))
  }

  /**
   * `str(p)`: the root followed by the components joined with "/", or "." when
   * both are empty. After the root, the text splits on "/" into exactly the
   * components.
   */
  function PathStr(p: PurePath): (s: string)
    ensures s != ""
    ensures p.root == "" && p.tail == [] ==> s == "."
    ensures p.root != "" && p.tail == [] ==> s == p.root
    ensures p.tail != [] ==> |p.root| <= |s| && s[..|p.root|] == p.root
    ensures ValidPath(p) && p.tail != [] ==> Split(s[|p.root|..]) == p.tail
    ensures ValidPath(p) ==> (s[0] == Sep <==> p.root != "")
  {
    var s := p.root + Join(p.tail);
    if s == "" then "."
    else if ValidPath(p) && p.tail != [] then
      JoinStartsWithPart(p.tail);
      SplitJoin(p.tail);
      assert s[|p.root|..] == Join(p.tail);
      s
    else s
  }

  /** `p.name`: the final component, or "" when there is none. */
  function Name(p: PurePath): (name: string)
    ensures ValidPath(p) ==> Sep !in name
    ensures ValidPath(p) ==> (name == "" <==> p.tail == [])
  {
    if p.tail == [] then "" else p.tail[|p.tail| - 1]
  }

  /** Splitting a string whose first character is `c`. */
  lemma SplitCons(c: char, t: string)
    ensures Split([c] + t) == if c == Sep then [""] + Split(t) else [[c] + Split(t)[0]] + Split(t)[1..]
  {
    assert ([c] + t)[0] == c && ([c] + t)[1..] == t;
  }

  /** Gluing a character onto the first piece of `inner + rest` changes only the `inner` part. */
  lemma PrefixFirstPiece(c: char, inner: seq<string>, rest: seq<string>)
    requires |inner| >= 1
    ensures [[c] + (inner + rest)[0]] + (inner + rest)[1..] == ([[c] + inner[0]] + inner[1..]) + rest
  {
    assert (inner + rest)[1..] == inner[1..] + rest;
  }

  /** One step of `SplitConcat`: a character in front of `a` goes to the first piece on both sides. */
  lemma AppendAssoc(x: seq<string>, y: seq<string>, z: seq<string>)
    ensures x + (y + z) == (x + y) + z
  {
  }

  lemma SplitConcatCons(c: char, a: string, b: string)
    requires Split(a + [Sep] + b) == Split(a) + Split(b)
    ensures Split([c] + (a + [Sep] + b)) == Split([c] + a) + Split(b)
  {
    var t, left, right := a + [Sep] + b, Split(a), Split(b);
    SplitCons(c, t);
    SplitCons(c, a);
    if c == Sep {
      calc {
        Split([c] + t);
        [""] + (left + right);
        { AppendAssoc([""], left, right); }
        ([""] + left) + right;
        Split([c] + a) + right;
      }
    } else {
      calc {
        Split([c] + t);
        [[c] + (left + right)[0]] + (left + right)[1..];
        { PrefixFirstPiece(c, left, right); }
        ([[c] + left[0]] + left[1..]) + right;
        Split([c] + a) + right;
      }
    }
  }

  /** Splitting at one separator splits each side on its own. */
  lemma {:induction false} SplitConcat(a: string, b: string)
    ensures Split(a + [Sep] + b) == Split(a) + Split(b)
  {
    if a == [] {
      assert a + [Sep] + b == [Sep] + b;
      SplitRooted(b);
    } else {
      SplitConcat(a[1..], b);
      SplitConcatCons(a[0], a[1..], b);
      assert a == [a[0]] + a[1..];
      assert a + [Sep] + b == [a[0]] + (a[1..] + [Sep] + b);
    }
  }

  /** The last piece of a split is the basename. */
  lemma SplitEndsWithBasename(s: string)
    ensures |Basename(s)| < |s| ==> Split(s) == Split(s[..|s| - |Basename(s)| - 1]) + [Basename(s)]
    ensures |Basename(s)| == |s| ==> Split(s) == [Basename(s)]
  {
    var b := Basename(s);
    SplitWithoutSep(b);
    if |b| < |s| {
      var a := s[..|s| - |b| - 1];
      assert s == a + [Sep] + b;
      SplitConcat(a, b);
    } else {
      assert s == b;
    }
  }

  /**
   * When the text after the last "/" is a component, it is the parsed path's
   * `.name`: `os.path.basename` and `PurePosixPath(s).name` agree.
   */
  lemma NameIsBasename(s: string)
    requires IsPart(Basename(s))
    ensures Name(ParsePath(s)) == Basename(s)
  {
    var b := Basename(s);
    SplitEndsWithBasename(s);
    var front := if |b| < |s| then Split(s[..|s| - |b| - 1]) else [];
    assert Split(s) == front + [b];
    DropEmptyAppend(front, [b]);
    DropEmptySingle(b);
  }

  /**
   * `p.relative_to(other)`: the components of `p` after those of `other`, as a
   * relative path, when `other` has the same root and its components are a prefix
   * of `p`'s; otherwise `ValueError`, here `None`.
   */
  function RelativeTo(p: PurePath, other: PurePath): (rel: Option<PurePath>)
    ensures rel.Some? <==> p.root == other.root && |other.tail| <= |p.tail| && p.tail[..|other.tail|] == other.tail
    ensures rel.Some? ==> rel.value.root == "" && other.tail + rel.value.tail == p.tail
  {
    if p.root == other.root && |other.tail| <= |p.tail| && p.tail[..|other.tail|] == other.tail then
      Some(PurePath("", p.tail[|other.tail|..]))
    else None
  }

  lemma JoinStartsWithPart(parts: seq<string>)
    requires parts != [] && IsPart(parts[0])
    ensures Join(parts) != [] && Join(parts)[0] == parts[0][0] && Join(parts)[0] != Sep
  {
    assert parts[0][0] in parts[0];
  }

  /** Splitting after a leading separator gives an empty first piece. */
  lemma SplitRooted(j: string)
    ensures Split([Sep] + j) == [""] + Split(j)
  {
    SplitAtSep("", j);
    assert "" + [Sep] + j == [Sep] + j;
  }

  /** Leading empty pieces are dropped. */
  lemma DropLeadingEmpty(n: nat, pieces: seq<string>)
    requires n <= 2
    requires forall i :: 0 <= i < |pieces| ==> Sep !in pieces[i]
    ensures DropEmpty(seq(n, _ => "") + pieces) == DropEmpty(pieces)
  {
    var empties := seq(n, _ => "");
    DropEmptyAppend(empties, pieces);
    if n == 1 {
      DropEmptySingle("");
    } else if n == 2 {
      assert empties == [""] + [""];
      DropEmptyAppend([""], [""]);
      DropEmptySingle("");
    }
  }

  /** Parsing the string form of a parsed path gives that path back. */
  lemma ParsePathStr(p: PurePath)
    requires ValidPath(p)
    ensures ParsePath(PathStr(p)) == p
  {
    var j := Join(p.tail);
    var s := PathStr(p);
    if p.tail != [] {
      JoinStartsWithPart(p.tail);
      SplitJoin(p.tail);
    } else {
      assert Split(j) == [""];
    }
    assert DropEmpty(Split(j)) == p.tail by {
      if p.tail == [] {
        DropEmptySingle("");
      }
    }
    if p.root == "" {
      if p.tail == [] {
        assert s == ".";
        SplitWithoutSep(s);
        DropEmptySingle(".");
      }
    } else if p.root == "/" {
      assert s == [Sep] + j;
      ParseOneRoot(j);
    } else {
      assert s == [Sep] + ([Sep] + j);
      ParseTwoRoots(j);
    }
  }

  /** One leading separator adds no component. */
  lemma ParseOneRoot(j: string)
    ensures DropEmpty(Split([Sep] + j)) == DropEmpty(Split(j))
  {
    SplitRooted(j);
    DropLeadingEmpty(1, Split(j));
    assert seq(1, _ => "") == [""];
  }

  /** Two leading separators add no component either. */
  lemma ParseTwoRoots(j: string)
    ensures DropEmpty(Split([Sep] + ([Sep] + j))) == DropEmpty(Split(j))
  {
    SplitRooted([Sep] + j);
    SplitRooted(j);
    DropLeadingEmpty(2, Split(j));
    assert seq(2, _ => "") + Split(j) == [""] + ([""] + Split(j));
  }

  lemma SplitDoubled()
    ensures Split("a//b") == ["a", "", "b"]
  {
    SplitWithoutSep("b");
    assert "/b" == "" + [Sep] + "b";
    SplitAtSep("", "b");
    assert "a//b" == "a" + [Sep] + "/b";
    SplitAtSep("a", "/b");
  }

  lemma DropDoubled()
    ensures DropEmpty(["a", "", "b"]) == ["a", "b"]
  {
    DropEmptyAppend(["a"], ["", "b"]);
    DropEmptyAppend([""], ["b"]);
    DropEmptySingle("a");
    DropEmptySingle("");
    DropEmptySingle("b");
  }

  /** A doubled separator inside a path vanishes when parsing. */
  lemma ParsePathCollapsesSeparators()
    ensures ParsePath("a//b") == PurePath("", ["a", "b"])
  {
    SplitDoubled();
    DropDoubled();
  }

  lemma SplitDotted()
    ensures Split("/a/./b/") == ["", "a", ".", "b", ""]
  {
    assert Split("") == [""];
    assert "b/" == "b" + [Sep] + "";
    SplitAtSep("b", "");
    assert "./b/" == "." + [Sep] + "b/";
    SplitAtSep(".", "b/");
    assert "a/./b/" == "a" + [Sep] + "./b/";
    SplitAtSep("a", "./b/");
    assert "/a/./b/" == "" + [Sep] + "a/./b/";
    SplitAtSep("", "a/./b/");
  }

  lemma DropDotted()
    ensures DropEmpty(["", "a", ".", "b", ""]) == ["a", "b"]
  {
    DropEmptyAppend([""], ["a", ".", "b", ""]);
    DropEmptyAppend(["a"], [".", "b", ""]);
    DropEmptyAppend(["."], ["b", ""]);
    DropEmptyAppend(["b"], [""]);
    DropEmptySingle("");
    DropEmptySingle("a");
    DropEmptySingle(".");
    DropEmptySingle("b");
  }

  /** "." components and a trailing separator vanish when parsing. */
  lemma ParsePathCollapsesDots()
    ensures ParsePath("/a/./b/") == PurePath("/", ["a", "b"])
  {
    SplitDotted();
    DropDotted();
  }
}
