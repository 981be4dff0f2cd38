/** Paths as `java.nio.file.Path` treats them on a Unix file system: parsing a
    string into name elements, printing a path back, `resolve`, `normalize`
    and `startsWith`. Only the behaviour the file service relies on is kept:
    there are no symbolic links and nothing is looked up on disk. */
module FilePaths {
  import opened Common

  /** A path: whether it starts at the file-system root, and its names. */
  datatype Path = Path(absolute: bool, names: seq<string>)

  /** A name element as parsing produces it: non-empty, with no separator
      and no NUL character. */
  predicate WellFormedName(n: string) {
    n != "" && '/' !in n && '\0' !in n
  }

  predicate WellFormed(p: Path) {
    forall i :: 0 <= i < |p.names| ==> WellFormedName(p.names[i])
  }

  /** Length of the name that starts a string not starting with '/'. */
  function NameLength(s: string): (k: nat)
    requires s != [] && s[0] != '/'
    ensures 0 < k <= |s|
    ensures '/' !in s[..k]
    ensures k < |s| ==> s[k] == '/'
    decreases |s|
  {
    if |s| == 1 || s[1] == '/' then 1 else 1 + NameLength(s[1..])
  }

  /** The names of a path string: the runs of characters between '/'
      separators. Empty runs (a leading, trailing or doubled '/') yield no
      name, as when `UnixPath` parses a string. */
  function SplitNames(s: string): seq<string>
    decreases |s|
  {
    if s == [] then []
    else if s[0] == '/' then SplitNames(s[1..])
    else
      var k := NameLength(s);
      [s[..k]] + SplitNames(s[k..])
  }

  /** `Paths.get(s)`: fails with an `InvalidPathException` when the string
      holds a NUL character. */
  function Parse(s: string): Option<Path> {
    if '\0' in s then None
    else Some(Path(|s| > 0 && s[0] == '/', SplitNames(s)))
  }

  function JoinNames(ns: seq<string>): string {
    if ns == [] then ""
    else if |ns| == 1 then ns[0]
    else ns[0] + "/" + JoinNames(ns[1..])
  }

  /** `Path.toString()`. */
  function ToString(p: Path): string {
    (if p.absolute then "/" else "") + JoinNames(p.names)
  }

  /** `base.resolve(other)`: an absolute `other` replaces the base, an empty
      one leaves it as it is, anything else is appended. */
  function Resolve(base: Path, other: Path): Path {
    if other.absolute then other else Path(base.absolute, base.names + other.names)
  }

  /** `Path.normalize()`: drops "." names, and drops a ".." together with the
      name before it when that name is not itself "..". A ".." at the start
      of an absolute path is dropped; at the start of a relative path it is
      kept. */
  function Normalize(p: Path): Path {
    Path(p.absolute, NormalizeNames(p.absolute, [], p.names))
  }

  function NormalizeNames(absolute: bool, done: seq<string>, rest: seq<string>): seq<string>
    decreases |rest|
  {
    if rest == [] then done
    else if rest[0] == "." then NormalizeNames(absolute, done, rest[1..])
    else if rest[0] == ".." && |done| > 0 && done[|done| - 1] != ".." then
      NormalizeNames(absolute, done[..|done| - 1], rest[1..])
    else if rest[0] == ".." && |done| == 0 && absolute then
      NormalizeNames(absolute, done, rest[1..])
    else NormalizeNames(absolute, done + [rest[0]], rest[1..])
  }

  /** `p.startsWith(prefix)`: same kind of path, and the names of `prefix`
      begin the names of `p`. */
  predicate StartsWith(p: Path, prefix: Path) {
    p.absolute == prefix.absolute && prefix.names <= p.names
  }

  /** A name that normalisation leaves alone. */
  predicate Plain(n: string) {
    n != "." && n != ".."
  }

  /** Plain names pass through normalisation unchanged. */
  lemma {:induction false} NormalizePlainPrefix(absolute: bool, done: seq<string>, plain: seq<string>, rest: seq<string>)
    requires forall i :: 0 <= i < |plain| ==> Plain(plain[i])
    ensures NormalizeNames(absolute, done, plain + rest) == NormalizeNames(absolute, done + plain, rest)
    decreases |plain|
  {
    if plain != [] {
      assert (plain + rest)[0] == plain[0];
      assert (plain + rest)[1..] == plain[1..] + rest;
      NormalizePlainPrefix(absolute, done + [plain[0]], plain[1..], rest);
      assert done + [plain[0]] + plain[1..] == done + plain;
    } else {
      assert plain + rest == rest;
      assert done + plain == done;
    }
  }

  /** Parsing a printed well-formed path gives the path back: the string a
      service records for a path leads back to the same path. */
  lemma ParseToString(p: Path)
    requires WellFormed(p)
    ensures Parse(ToString(p)) == Some(p)
  {
    var j := JoinNames(p.names);
    JoinNamesHasNoNul(p.names);
    SplitJoin(p.names);
    if p.absolute {
      assert ToString(p) == "/" + j;
      assert ("/" + j)[1..] == j;
      assert '\0' !in "/" + j;
    } else {
      assert ToString(p) == j;
      if p.names != [] {
        JoinNamesStart(p.names);
      }
    }
  }

  lemma {:induction false} JoinNamesHasNoNul(ns: seq<string>)
    requires forall i :: 0 <= i < |ns| ==> WellFormedName(ns[i])
    ensures '\0' !in JoinNames(ns)
  {
    if |ns| > 1 {
      JoinNamesHasNoNul(ns[1..]);
      assert WellFormedName(ns[0]);
      var rest := JoinNames(ns[1..]);
      assert JoinNames(ns) == ns[0] + "/" + rest;
      forall c | c in ns[0] + "/" + rest ensures c != '\0' {
        assert c in ns[0] || c in "/" + rest;
        if c !in ns[0] { assert c == '/' || c in rest; }
      }
    } else if |ns| == 1 {
      assert WellFormedName(ns[0]);
    }
  }

  lemma JoinNamesStart(ns: seq<string>)
    requires ns != [] && WellFormedName(ns[0])
    ensures |JoinNames(ns)| > 0 && JoinNames(ns)[0] == ns[0][0]
  {
    assert ns[0][0] in ns[0];
  }

  lemma {:induction false} SplitJoin(ns: seq<string>)
    requires forall i :: 0 <= i < |ns| ==> WellFormedName(ns[i])
    ensures SplitNames(JoinNames(ns)) == ns
  {
    if ns == [] {
    } else {
      var n := ns[0];
      assert WellFormedName(n);
      assert n[0] in n;
      var s := JoinNames(ns);
      var tail := if |ns| == 1 then "" else "/" + JoinNames(ns[1..]);
      assert s == n + tail;
      assert s[0] == n[0];
      NameLengthOfJoin(n, tail);
      var k := NameLength(s);
      assert s[..k] == n;
      assert s[k..] == tail;
      if |ns| == 1 {
        assert SplitNames(s[k..]) == [];
      } else {
        SplitJoin(ns[1..]);
        assert tail[1..] == JoinNames(ns[1..]);
        assert SplitNames(tail) == SplitNames(tail[1..]);
      }
      assert SplitNames(s) == [n] + SplitNames(s[k..]);
    }
  }

  /** The first name of `n + tail` is `n` when `tail` is empty or starts a
      new name. */
  lemma {:induction false} NameLengthOfJoin(n: string, tail: string)
    requires WellFormedName(n)
    requires tail == "" || tail[0] == '/'
    ensures n[0] in n
    ensures NameLength(n + tail) == |n|
    decreases |n|
  {
    var s := n + tail;
    assert n[0] in n;
    if |n| > 1 {
      assert s[1] == n[1] && n[1] in n;
      assert s[1..] == n[1..] + tail;
      assert forall c :: c in n[1..] ==> c in n;
      NameLengthOfJoin(n[1..], tail);
    }
  }

  /** The first name of a string ends exactly at its first separator. */
  lemma NameLengthUnique(s: string, k: nat)
    requires s != [] && s[0] != '/'
    requires 0 < k <= |s| && '/' !in s[..k] && (k < |s| ==> s[k] == '/')
    ensures NameLength(s) == k
  {
  }

  /** A trailing separator adds no name. */
  lemma {:induction false} SplitTrailingSlash(s: string)
    ensures SplitNames(s + "/") == SplitNames(s)
    decreases |s|
  {
    var t := s + "/";
    if s == [] {
      assert t[1..] == [];
    } else if s[0] == '/' {
      assert t[1..] == s[1..] + "/";
      SplitTrailingSlash(s[1..]);
    } else {
      var k := NameLength(s);
      assert t[..k] == s[..k];
      assert k < |t| && t[k] == '/';
      NameLengthUnique(t, k);
      assert t[k..] == s[k..] + "/";
      SplitTrailingSlash(s[k..]);
    }
  }

  /** A string that is a single well-formed name parses to that name. */
  lemma SingleNameParses(n: string)
    requires WellFormedName(n)
    ensures Parse(n) == Some(Path(false, [n]))
  {
    NameLengthOfJoin(n, "");
    assert n + "" == n;
    assert NameLength(n) == |n|;
    assert n[..|n|] == n && n[|n|..] == "";
    assert n[0] != '/';
    assert SplitNames(n) == [n] + SplitNames("");
    assert SplitNames("") == [];
    assert [n] + [] == [n];
  }

  /** Every name that parsing produces is well formed. */
  lemma {:induction false} SplitNamesWellFormed(s: string)
    requires '\0' !in s
    ensures forall i :: 0 <= i < |SplitNames(s)| ==> WellFormedName(SplitNames(s)[i])
    decreases |s|
  {
    if s == [] {
    } else if s[0] == '/' {
      SplitNamesWellFormed(s[1..]);
    } else {
      var k := NameLength(s);
      SplitNamesWellFormed(s[k..]);
      assert forall c :: c in s[..k] ==> c in s;
    }
  }

  lemma ParseWellFormed(s: string)
    requires Parse(s).Some?
    ensures WellFormed(Parse(s).value)
  {
    SplitNamesWellFormed(s);
  }
}
