/**
 * The Python 2 string operations the installer scripts rely on, with the
 * semantics of CPython's `str` methods: `split` on one separator character,
 * `strip`, `startswith`, `find`, `replace`, `str()` of an integer, and the
 * ordering `sorted` uses.
 */
module PyStr {

  import opened Common

  // ---------------------------------------------------------------------------
  // Characters
  // ---------------------------------------------------------------------------

  /** `c.isspace()` for the ASCII range: space, tab, newline, return, vertical tab, form feed. */
  predicate IsSpace(c: char)
  {
    c == ' ' || c == '\t' || c == '\n' || c == '\r' || c == '\U{0B}' || c == '\U{0C}'
  }

  predicate IsDigit(c: char) { '0' <= c <= '9' }

  predicate IsAsciiLetter(c: char) { 'A' <= c <= 'Z' || 'a' <= c <= 'z' }

  predicate AllDigits(s: string) { forall i :: 0 <= i < |s| ==> IsDigit(s[i]) }

  // ---------------------------------------------------------------------------
  // Prefixes, suffixes, searching
  // ---------------------------------------------------------------------------

  predicate StartsWith(s: string, p: string) { |p| <= |s| && s[..|p|] == p }

  predicate EndsWith(s: string, p: string) { |p| <= |s| && s[|s| - |p|..] == p }

  /** `p` occurs in `s` at index `i`. */
  predicate OccursAt(s: string, p: string, i: int)
  {
    0 <= i && i + |p| <= |s| && s[i..i + |p|] == p
  }

  /** `p in s` for strings. */
  predicate Contains(s: string, p: string)
  {
    exists i :: 0 <= i <= |s| && OccursAt(s, p, i)
  }

  /** `s.find(p)`: the lowest index at which `p` occurs, or -1. */
  function Find(s: string, p: string): (i: int)
    ensures -1 <= i <= |s|
    ensures i >= 0 ==> OccursAt(s, p, i)
    ensures forall j :: 0 <= j && (i < 0 || j < i) ==> !OccursAt(s, p, j)
  {
    FindFrom(s, p, 0)
  }

  function FindFrom(s: string, p: string, from: nat): (i: int)
    requires from <= |s| + 1
    ensures -1 <= i <= |s|
    ensures i >= 0 ==> from <= i && OccursAt(s, p, i)
    ensures forall j :: from <= j && (i < 0 || j < i) ==> !OccursAt(s, p, j)
    decreases |s| + 1 - from
  {
    if from + |p| > |s| then -1
    else if s[from..from + |p|] == p then from
    else FindFrom(s, p, from + 1)
  }

  /** Index of the first `c` in `s`, or `|s|` when there is none. */
  function IndexOfChar(s: string, c: char): (i: nat)
    ensures i <= |s|
    ensures forall j :: 0 <= j < i ==> s[j] != c
    ensures i < |s| ==> s[i] == c
  {
    if s == [] then 0
    else if s[0] == c then 0
    else 1 + IndexOfChar(s[1..], c)
  }

  // ---------------------------------------------------------------------------
  // split
  // ---------------------------------------------------------------------------

  /** `s.split(sep)` for a one-character separator: never empty; `"".split(sep) == [""]`. */
  function Split(s: string, sep: char): (parts: seq<string>)
    ensures |parts| >= 1
    decreases |s|
  {
    var i := IndexOfChar(s, sep);
    if i == |s| then [s] else [s[..i]] + Split(s[i + 1..], sep)
  }

  /** `sep.join(parts)`. */
  function Join(parts: seq<string>, sep: char): string
  {
    if parts == [] then ""
    else if |parts| == 1 then parts[0]
    else parts[0] + [sep] + Join(parts[1..], sep)
  }

  /** Splitting and joining back on the same separator gives the string again, and no part holds the separator. */
  lemma {:induction false} SplitJoin(s: string, sep: char)
    ensures Join(Split(s, sep), sep) == s
    ensures forall k :: 0 <= k < |Split(s, sep)| ==> sep !in Split(s, sep)[k]
    decreases |s|
  {
    var i := IndexOfChar(s, sep);
    if i < |s| {
      SplitJoin(s[i + 1..], sep);
      var rest := Split(s[i + 1..], sep);
      assert Split(s, sep) == [s[..i]] + rest;
      assert s == s[..i] + [sep] + s[i + 1..];
      forall k | 0 <= k < |Split(s, sep)| ensures sep !in Split(s, sep)[k] {
        if k > 0 {
          assert Split(s, sep)[k] == rest[k - 1];
        }
      }
    }
  }

  /** `head, tail = s.split(sep, 1)`: None when `sep` does not occur (the unpacking raises ValueError). */
  function SplitOnce(s: string, sep: char): (r: Option<(string, string)>)
    ensures r.Some? <==> sep in s
    ensures r.Some? ==> s == r.value.0 + [sep] + r.value.1 && sep !in r.value.0
  {
    var i := IndexOfChar(s, sep);
    if i == |s| then None else Some((s[..i], s[i + 1..]))
  }

  /** Splitting at the first occurrence of a separator absent from the head gives back head and tail. */
  lemma SplitOnceAt(head: string, sep: char, tail: string)
    requires sep !in head
    ensures SplitOnce(head + [sep] + tail, sep) == Some((head, tail))
  {
    var s := head + [sep] + tail;
    var r := SplitOnce(s, sep);
    assert s[|head|] == sep;
    assert forall j :: 0 <= j < |head| ==> s[j] == head[j];
    assert IndexOfChar(s, sep) == |head|;
    assert s[..|head|] == head && s[|head| + 1..] == tail;
  }

  /**
   * `os.path.join(root, f)` for one component: an absolute `f` replaces the
   * root, otherwise a '/' is inserted unless the root is empty or already
   * ends in one.
   */
  function PathJoin(root: string, f: string): (p: string)
    ensures EndsWith(p, f)
    ensures !StartsWith(f, "/") ==> p == root + f || p == root + "/" + f
  {
    if StartsWith(f, "/") then f
    else if root == [] || root[|root| - 1] == '/' then root + f
    else root + "/" + f
  }

  /**
   * The component fold of `posixpath.normpath`: empty and "." components are
   * dropped, and ".." removes the component before it, except that it is
   * kept in a relative path with nothing before it or after another "..",
   * and dropped at the root of an absolute path.
   */
  function NormComps(comps: seq<string>, absolute: bool, acc: seq<string>): seq<string>
    decreases |comps|
  {
    if comps == [] then acc
    else
      var c := comps[0];
      if c == "" || c == "." then NormComps(comps[1..], absolute, acc)
      else if c != ".." || (!absolute && acc == []) || (acc != [] && acc[|acc| - 1] == "..") then
        NormComps(comps[1..], absolute, acc + [c])
      else if acc != [] then NormComps(comps[1..], absolute, acc[..|acc| - 1])
      else NormComps(comps[1..], absolute, acc)
  }

  /** Components a normalised path may hold: none empty or ".", no '/', and no ".." in an absolute path. */
  predicate CleanComps(cs: seq<string>, absolute: bool)
  {
    forall i :: 0 <= i < |cs| ==> cs[i] != "" && cs[i] != "." && '/' !in cs[i] && (absolute ==> cs[i] != "..")
  }

  /**
   * `os.path.normpath` on POSIX: the leading slashes are kept (two stay two,
   * three or more become one), the components are folded, and an empty
   * result is ".".
   */
  function NormPath(path: string): (r: string)
    ensures r != ""
    ensures r[0] == '/' <==> path != "" && path[0] == '/'
  {
    if path == "" then "."
    else
      var initial := if StartsWith(path, "//") && !StartsWith(path, "///") then "//"
                     else if path[0] == '/' then "/" else "";
      var comps := Split(path, '/');
      SplitJoin(path, '/');
      NormCompsClean(comps, initial != "", []);
      var cs := NormComps(comps, initial != "", []);
      JoinHead(cs, '/');
      var p := initial + Join(cs, '/');
      if p == "" then "." else p
  }

  /** The fold keeps clean components clean. */
  lemma {:induction false} NormCompsClean(comps: seq<string>, absolute: bool, acc: seq<string>)
    requires CleanComps(acc, absolute)
    requires forall k :: 0 <= k < |comps| ==> '/' !in comps[k]
    ensures CleanComps(NormComps(comps, absolute, acc), absolute)
    decreases |comps|
  {
    if comps != [] {
      var c := comps[0];
      if c == "" || c == "." {
        NormCompsClean(comps[1..], absolute, acc);
      } else if c != ".." || (!absolute && acc == []) || (acc != [] && acc[|acc| - 1] == "..") {
        NormCompsClean(comps[1..], absolute, acc + [c]);
      } else if acc != [] {
        NormCompsClean(comps[1..], absolute, acc[..|acc| - 1]);
      } else {
        NormCompsClean(comps[1..], absolute, acc);
      }
    }
  }

  /** A relative path is `cwd`-joined and normalised: `os.path.abspath`, with the working directory a parameter. */
  function AbsPath(cwd: string, path: string): (r: string)
    ensures StartsWith(path, "/") ==> r == NormPath(path)
    ensures !StartsWith(path, "/") ==> r == NormPath(PathJoin(cwd, path))
  {
    if StartsWith(path, "/") then NormPath(path) else NormPath(PathJoin(cwd, path))
  }

  /** An absolute working directory makes every result of `AbsPath` absolute. */
  lemma AbsPathIsAbsolute(cwd: string, path: string)
    requires cwd != "" && cwd[0] == '/'
    ensures AbsPath(cwd, path)[0] == '/'
  {
    if !StartsWith(path, "/") {
      var j := PathJoin(cwd, path);
      assert j[0] == cwd[0];
    }
  }

  /** The first part of a split ends at the first separator. */
  lemma SplitAtFirst(head: string, sep: char, rest: string)
    requires sep !in head
    ensures Split(head + [sep] + rest, sep) == [head] + Split(rest, sep)
  {
    var s := head + [sep] + rest;
    assert s[|head|] == sep;
    assert forall j :: 0 <= j < |head| ==> s[j] == head[j];
    assert IndexOfChar(s, sep) == |head|;
    assert s[..|head|] == head && s[|head| + 1..] == rest;
  }

  /** Splitting a join of parts free of the separator gives the parts back. */
  lemma {:induction false} SplitOfJoin(parts: seq<string>, sep: char)
    requires |parts| >= 1 && forall k :: 0 <= k < |parts| ==> sep !in parts[k]
    ensures Split(Join(parts, sep), sep) == parts
    decreases |parts|
  {
    if |parts| > 1 {
      SplitAtFirst(parts[0], sep, Join(parts[1..], sep));
      SplitOfJoin(parts[1..], sep);
      assert parts == [parts[0]] + parts[1..];
    }
  }

  /** The fold leaves components that need no normalising as they are. */
  lemma {:induction false} NormCompsOfClean(comps: seq<string>, acc: seq<string>)
    requires CleanComps(comps, true)
    ensures NormComps(comps, true, acc) == acc + comps
    decreases |comps|
  {
    if comps != [] {
      NormCompsOfClean(comps[1..], acc + [comps[0]]);
      assert acc + [comps[0]] + comps[1..] == acc + comps;
    }
  }

  /** A leading separator splits off an empty first part. */
  lemma SplitLeadingSep(x: string, sep: char)
    ensures Split([sep] + x, sep) == [""] + Split(x, sep)
  {
    assert IndexOfChar([sep] + x, sep) == 0;
    assert ([sep] + x)[1..] == x;
  }

  /** The join of clean components starts with the first component's first character. */
  lemma JoinHead(cs: seq<string>, sep: char)
    ensures |cs| >= 1 && cs[0] != "" ==> |Join(cs, sep)| > 0 && Join(cs, sep)[0] == cs[0][0]
  {
  }

  /** An absolute path that is already normal is its own normal form. */
  lemma NormalPathUnchanged(comps: seq<string>)
    requires CleanComps(comps, true)
    ensures NormPath("/" + Join(comps, '/')) == "/" + Join(comps, '/')
  {
    var path := "/" + Join(comps, '/');
    if comps == [] {
      assert path == "/";
      SplitLeadingSep("", '/');
      assert Split(path, '/') == ["", ""];
      assert NormComps(["", ""], true, []) == [];
    } else {
      SplitOfJoin(comps, '/');
      SplitLeadingSep(Join(comps, '/'), '/');
      assert Split(path, '/') == [""] + comps;
      JoinHead(comps, '/');
      assert path[1] == comps[0][0] != '/';
      assert !StartsWith(path, "//");
      assert ([""] + comps)[1..] == comps;
      NormCompsOfClean(comps, []);
      assert NormComps([""] + comps, true, []) == comps;
    }
  }

  // ---------------------------------------------------------------------------
  // strip
  // ---------------------------------------------------------------------------

  /** `s.lstrip(c)` for a one-character argument. */
  function LStripChar(s: string, c: char): (r: string)
    ensures |r| <= |s| && r == s[|s| - |r|..]
    ensures r == [] || r[0] != c
    ensures forall i :: 0 <= i < |s| - |r| ==> s[i] == c
  {
    if s != [] && s[0] == c then LStripChar(s[1..], c) else s
  }

  /** `s.lstrip()`. */
  function LStrip(s: string): (r: string)
    ensures |r| <= |s| && r == s[|s| - |r|..]
    ensures r == [] || !IsSpace(r[0])
    ensures forall i :: 0 <= i < |s| - |r| ==> IsSpace(s[i])
  {
    if s != [] && IsSpace(s[0]) then LStrip(s[1..]) else s
  }

  /** `s.rstrip()`. */
  function RStrip(s: string): (r: string)
    ensures |r| <= |s| && r == s[..|r|]
    ensures r == [] || !IsSpace(r[|r| - 1])
    ensures forall i :: |r| <= i < |s| ==> IsSpace(s[i])
  {
    if s != [] && IsSpace(s[|s| - 1]) then RStrip(s[..|s| - 1]) else s
  }

  /** `s.strip()`. */
  function Strip(s: string): (r: string)
    ensures r == [] || (!IsSpace(r[0]) && !IsSpace(r[|r| - 1]))
  {
    RStrip(LStrip(s))
  }

  // ---------------------------------------------------------------------------
  // replace
  // ---------------------------------------------------------------------------

  /** `s.replace(pat, rep)`: every occurrence, scanning left to right, without overlaps. */
  function ReplaceAll(s: string, pat: string, rep: string): string
    requires |pat| > 0
    decreases |s|
  {
    if |s| < |pat| then s
    else if s[..|pat|] == pat then rep + ReplaceAll(s[|pat|..], pat, rep)
    else [s[0]] + ReplaceAll(s[1..], pat, rep)
  }

  /** Where `pat` does not occur, `replace` changes nothing. */
  lemma {:induction false} ReplaceAbsent(s: string, pat: string, rep: string)
    requires |pat| > 0 && !Contains(s, pat)
    ensures ReplaceAll(s, pat, rep) == s
    decreases |s|
  {
    if |s| >= |pat| {
      assert !OccursAt(s, pat, 0);
      forall i | OccursAt(s[1..], pat, i) ensures false {
        assert s[1..][i..i + |pat|] == s[i + 1..i + 1 + |pat|];
        assert OccursAt(s, pat, i + 1);
      }
      ReplaceAbsent(s[1..], pat, rep);
    }
  }

  /**
   * Removing every occurrence of a suffix `pat` from `b + pat` gives `b` back,
   * provided `pat` does not occur in `b` and its first character does not
   * occur again inside it (so no occurrence can straddle `b` and the suffix).
   */
  lemma {:induction false} RemoveSuffixOnce(b: string, pat: string)
    requires |pat| > 0
    requires !Contains(b, pat)
    requires pat[0] !in pat[1..]
    ensures ReplaceAll(b + pat, pat, "") == b
    decreases |b|
  {
    var s := b + pat;
    if b == [] {
      assert s[..|pat|] == pat;
      assert s[|pat|..] == [];
    } else {
      NoOccurrenceAtStart(b, pat);
      forall i | OccursAt(b[1..], pat, i) ensures false {
        assert b[1..][i..i + |pat|] == b[i + 1..i + 1 + |pat|];
        assert OccursAt(b, pat, i + 1);
      }
      assert s[1..] == b[1..] + pat;
      RemoveSuffixOnce(b[1..], pat);
    }
  }

  /** Under the same conditions no occurrence of `pat` starts at the head of `b + pat`. */
  lemma NoOccurrenceAtStart(b: string, pat: string)
    requires |b| > 0 && |pat| > 0
    requires !Contains(b, pat)
    requires pat[0] !in pat[1..]
    ensures (b + pat)[..|pat|] != pat
  {
    var s := b + pat;
    if |b| >= |pat| {
      // An occurrence lying within b is excluded.
      assert s[..|pat|] == b[..|pat|];
      assert !OccursAt(b, pat, 0);
    } else {
      // One running into the suffix would find pat[0] again inside pat.
      assert s[|b|] == pat[0];
      assert pat[1..][|b| - 1] == pat[|b|];
    }
  }

  // ---------------------------------------------------------------------------
  // str() of an integer
  // ---------------------------------------------------------------------------

  function DigitChar(d: int): (c: char)
    requires 0 <= d < 10
    ensures IsDigit(c)
  {
    "0123456789"[d]
  }

  function DigitValue(c: char): int
    requires IsDigit(c)
  {
    (c - '0') as int
  }

  /** `str(n)` for a natural number: its decimal digits, no leading zero. */
  function NatToString(n: nat): (s: string)
    ensures |s| >= 1 && AllDigits(s)
    ensures |s| > 1 ==> s[0] != '0'
    decreases n
  {
    if n < 10 then [DigitChar(n)] else NatToString(n / 10) + [DigitChar(n % 10)]
  }

  /** `int(s)` for a string of decimal digits. */
  function ParseNat(s: string): nat
    requires AllDigits(s)
    decreases |s|
  {
    if s == [] then 0 else ParseNat(s[..|s| - 1]) * 10 + DigitValue(s[|s| - 1])
  }

  /** Reading back the digits `str` writes gives the number. */
  lemma {:induction false} ParseNatToString(n: nat)
    ensures ParseNat(NatToString(n)) == n
    decreases n
  {
    var s := NatToString(n);
    if n >= 10 {
      ParseNatToString(n / 10);
      assert s[..|s| - 1] == NatToString(n / 10);
    }
    assert DigitValue(DigitChar(n % 10)) == n % 10 by {
      assert "0123456789"[n % 10] as int == '0' as int + n % 10;
    }
  }

  /** `str(n)` for any integer. */
  function IntToString(n: int): (s: string)
    ensures |s| >= 1
    ensures n >= 0 <==> AllDigits(s)
  {
    if n >= 0 then NatToString(n)
    else
      var s := "-" + NatToString(-n);
      assert !IsDigit(s[0]);
      s
  }

  /** `str(b)` for a bool. */
  function BoolToString(b: bool): string
  {
    if b then "True" else "False"
  }

  // ---------------------------------------------------------------------------
  // Ordering of strings, as `<` and `sorted` compare them
  // ---------------------------------------------------------------------------

  /** `a < b` for strings: character-by-character, a proper prefix first. */
  predicate StrLess(a: string, b: string)
  {
    if a == [] then b != []
    else if b == [] then false
    else if a[0] != b[0] then a[0] < b[0]
    else StrLess(a[1..], b[1..])
  }

  lemma {:induction false} StrLessIrreflexive(a: string)
    ensures !StrLess(a, a)
  {
    if a != [] { StrLessIrreflexive(a[1..]); }
  }

  lemma {:induction false} StrLessTransitive(a: string, b: string, c: string)
    requires StrLess(a, b) && StrLess(b, c)
    ensures StrLess(a, c)
  {
    if a != [] && a[0] == b[0] && b[0] == c[0] {
      StrLessTransitive(a[1..], b[1..], c[1..]);
    }
  }

  lemma {:induction false} StrLessTotal(a: string, b: string)
    ensures a == b || StrLess(a, b) || StrLess(b, a)
  {
    if a != [] && b != [] && a[0] == b[0] {
      StrLessTotal(a[1..], b[1..]);
      if a[1..] == b[1..] {
        assert a == [a[0]] + a[1..] && b == [b[0]] + b[1..];
      }
    }
  }

  predicate StrictlySorted(r: seq<string>)
  {
    forall i, j :: 0 <= i < j < |r| ==> StrLess(r[i], r[j])
  }

  /** `m` is the least element of `s`. */
  predicate IsLeast(m: string, s: set<string>)
  {
    m in s && forall y :: y in s && y != m ==> StrLess(m, y)
  }

  /** Every finite non-empty set of strings has a least element. */
  lemma {:induction false} LeastExists(s: set<string>)
    requires s != {}
    ensures exists m :: IsLeast(m, s)
    decreases |s|
  {
    var x :| x in s;
    if s == {x} {
      assert IsLeast(x, s);
    } else {
      LeastExists(s - {x});
      var m :| IsLeast(m, s - {x});
      StrLessTotal(x, m);
      if StrLess(x, m) {
        forall y | y in s && y != x ensures StrLess(x, y) {
          if y != m { StrLessTransitive(x, m, y); }
        }
        assert IsLeast(x, s);
      } else {
        forall y | y in s && y != m ensures StrLess(m, y) {
          if y != x { assert y in s - {x}; }
        }
        assert IsLeast(m, s);
      }
    }
  }

  /** Strict order is asymmetric. */
  lemma StrLessAsymmetric(x: string, y: string)
    ensures !(StrLess(x, y) && StrLess(y, x))
  {
    if StrLess(x, y) && StrLess(y, x) {
      StrLessTransitive(x, y, x);
      StrLessIrreflexive(x);
    }
  }

  /** The tail of a strictly sorted list is strictly sorted, and its elements all follow the head. */
  lemma SortedTail(a: seq<string>)
    requires StrictlySorted(a) && a != []
    ensures StrictlySorted(a[1..])
    ensures forall x :: x in a[1..] ==> StrLess(a[0], x)
    ensures forall x :: x in a ==> x == a[0] || x in a[1..]
  {
    forall i, j | 0 <= i < j < |a| - 1 ensures StrLess(a[1..][i], a[1..][j]) {
      assert a[1..][i] == a[i + 1] && a[1..][j] == a[j + 1];
    }
    forall x | x in a[1..] ensures StrLess(a[0], x) {
      var k :| 0 <= k < |a| - 1 && a[1..][k] == x;
      assert a[k + 1] == x;
    }
    assert a == [a[0]] + a[1..];
  }

  /** Two strictly sorted lists with the same elements are equal: `sorted` has one possible answer. */
  lemma {:induction false} SortedUnique(a: seq<string>, b: seq<string>)
    requires StrictlySorted(a) && StrictlySorted(b)
    requires forall x :: x in a <==> x in b
    ensures a == b
  {
    if a != [] { assert a[0] in b; }
    if b != [] { assert b[0] in a; }
    if a != [] && b != [] {
      SortedTail(a);
      SortedTail(b);
      StrLessAsymmetric(a[0], b[0]);
      assert a[0] == b[0];
      forall x ensures x in a[1..] <==> x in b[1..] {
        StrLessIrreflexive(x);
      }
      SortedUnique(a[1..], b[1..]);
      assert a == [a[0]] + a[1..] && b == [b[0]] + b[1..];
    }
  }

  /** `sorted(keys)`: the keys of a dictionary in ascending order. */
  method SortedKeys<V>(m: map<string, V>) returns (r: seq<string>)
    ensures StrictlySorted(r)
    ensures forall k :: k in r <==> k in m
    ensures |r| == |m|
  {
    r := [];
    var rest := m.Keys;
    while rest != {}
      invariant rest <= m.Keys
      invariant forall k :: k in m ==> (k in r <==> k !in rest)
      invariant forall k :: k in r ==> k in m
      invariant StrictlySorted(r)
      invariant forall x, y :: x in r && y in rest ==> StrLess(x, y)
      invariant |r| + |rest| == |m|
      decreases |rest|
    {
      LeastExists(rest);
      var least :| IsLeast(least, rest);
      r := r + [least];
      rest := rest - {least};
    }
    assert m.Keys == set k | k in r;
  }
}
