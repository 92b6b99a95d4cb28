/**
 * Branch and version naming of tools/cdh_lib.py.
 *
 * The git invocations are not modelled: each function takes the text a git
 * command printed (before `git()` strips it) as a parameter.
 */
module CdhLib {

  import opened Common
  import opened PyStr

  datatype CdhError =
    | NotACdhBranch(branch: string)   // cdh_ancestor_branch on a name without the "cdh-" prefix
    | NoCdhBranch                     // branches[0] on an empty list (IndexError)

  const CDH_PREFIX := "cdh-"

  /** What `git(...)` returns for a command that printed `stdout`. */
  function GitOutput(stdout: string): string
  {
    Strip(stdout)
  }

  /** `git_rev_list`: the lines of the output, none for an empty output. */
  function RevList(stdout: string): (revs: seq<string>)
    ensures GitOutput(stdout) == "" ==> revs == []
    ensures GitOutput(stdout) != "" ==> Join(revs, '\n') == GitOutput(stdout)
  {
    var res := GitOutput(stdout);
    SplitJoin(res, '\n');
    if res == "" then [] else Split(res, '\n')
  }

  /** `count_commits_from`: how many revisions `git rev-list` printed. */
  function CountCommits(stdout: string): (n: nat)
    ensures n == 0 <==> GitOutput(stdout) == ""
  {
    |RevList(stdout)|
  }

  /** `git_cur_branch`: the branch HEAD points to, None when detached or when git fails (`stdout` is None). */
  function CurBranch(stdout: Option<string>): (b: Option<string>)
    ensures b.Some? <==> stdout.Some? && StartsWith(GitOutput(stdout.value), "refs/heads/")
    ensures b.Some? ==> GitOutput(stdout.value) == "refs/heads/" + b.value
  {
    if stdout.None? then None
    else
      var ret := GitOutput(stdout.value);
      if StartsWith(ret, "refs/heads/") then
        assert ret == ret[..11] + ret[11..];
        Some(ret[11..])
      else None
  }

  // ---------------------------------------------------------------------------
  // cdh_best_branch
  // ---------------------------------------------------------------------------

  /** The largest index `q` with `1 <= q <= hi` and `b[q] == '/'`, or -1. */
  function LastSlashUpTo(b: string, hi: int): (q: int)
    requires hi < |b|
    ensures q == -1 || (1 <= q <= hi && b[q] == '/')
    ensures forall j :: (if q < 1 then 1 else q + 1) <= j <= hi ==> b[j] != '/'
    decreases hi
  {
    if hi < 1 then -1 else if b[hi] == '/' then hi else LastSlashUpTo(b, hi - 1)
  }

  /**
   * `re.sub(r'^.+/(.+)$', r'\1', b)`: the greedy `.+` reaches the last '/'
   * that has a character before it and one after it; what follows that '/'
   * replaces the whole name.  Without such a '/' the name is unchanged.
   */
  function StripRemotePrefix(b: string): (r: string)
    ensures r == b || (exists q :: 1 <= q < |b| - 1 && b[q] == '/' && r == b[q + 1..])
    ensures r != b ==> |r| >= 1 && forall j :: |b| - |r| <= j < |b| - 1 ==> b[j] != '/'
    ensures r != b <==> exists q :: 1 <= q < |b| - 1 && b[q] == '/'
  {
    if |b| < 3 then b
    else
      var q := LastSlashUpTo(b, |b| - 2);
      if q == -1 then b else b[q + 1..]
  }

  /** One line of `git branch -a --contains`, as the list comprehensions of cdh_best_branch rewrite it. */
  function NormalizeBranch(line: string): string
  {
    StripRemotePrefix(Strip(LStripChar(line, '*')))
  }

  function NormalizeAll(lines: seq<string>): (r: seq<string>)
    ensures |r| == |lines|
    ensures forall i :: 0 <= i < |lines| ==> r[i] == NormalizeBranch(lines[i])
  {
    if lines == [] then [] else [NormalizeBranch(lines[0])] + NormalizeAll(lines[1..])
  }

  function CdhOnly(bs: seq<string>): (r: seq<string>)
    ensures forall b :: b in r <==> b in bs && StartsWith(b, CDH_PREFIX)
  {
    if bs == [] then []
    else if StartsWith(bs[0], CDH_PREFIX) then [bs[0]] + CdhOnly(bs[1..])
    else CdhOnly(bs[1..])
  }

  /** Every index one more: the positions of a tail's elements in the whole list. */
  function ShiftIndexes(g: seq<nat>): (h: seq<nat>)
    ensures |h| == |g| && forall i :: 0 <= i < |g| ==> h[i] == g[i] + 1
  {
    if g == [] then [] else [g[0] + 1] + ShiftIndexes(g[1..])
  }

  /** `f` picks `r` out of `xs` in order: `r[i]` is `xs[f[i]]` and the indexes strictly increase. */
  ghost predicate PicksInOrder<T>(f: seq<nat>, xs: seq<T>, r: seq<T>)
  {
    |f| == |r|
    && (forall i :: 0 <= i < |f| ==> f[i] < |xs| && r[i] == xs[f[i]])
    && (forall i, j :: 0 <= i < j < |f| ==> f[i] < f[j])
  }

  /** Picks from a tail, shifted by one, are picks from the whole list, and so are they with its head in front. */
  lemma ShiftPicks<T>(xs: seq<T>, g: seq<nat>, r: seq<T>)
    requires xs != [] && PicksInOrder(g, xs[1..], r)
    ensures PicksInOrder(ShiftIndexes(g), xs, r)
    ensures PicksInOrder([0] + ShiftIndexes(g), xs, [xs[0]] + r)
  {
    var h := ShiftIndexes(g);
    forall i | 0 <= i < |h|
      ensures h[i] < |xs| && r[i] == xs[h[i]]
    {
      assert xs[1..][g[i]] == xs[h[i]];
    }
  }

  /** The positions in `bs` of the elements CdhOnly keeps, in increasing order. */
  function CdhIndexes(bs: seq<string>): (f: seq<nat>)
    ensures PicksInOrder(f, bs, CdhOnly(bs))
    decreases |bs|
  {
    if bs == [] then []
    else
      var g := CdhIndexes(bs[1..]);
      ShiftPicks(bs, g, CdhOnly(bs[1..]));
      if StartsWith(bs[0], CDH_PREFIX) then [0] + ShiftIndexes(g) else ShiftIndexes(g)
  }

  /** The filter keeps the cdh branches in the order git listed them, and misses none of them. */
  lemma {:induction false} CdhOnlyInOrder(bs: seq<string>)
    ensures forall k :: 0 <= k < |bs| && StartsWith(bs[k], CDH_PREFIX) ==> k in CdhIndexes(bs)
    decreases |bs|
  {
    if bs != [] {
      CdhOnlyInOrder(bs[1..]);
      var g := CdhIndexes(bs[1..]);
      var h := ShiftIndexes(g);
      forall k | 1 <= k < |bs| && StartsWith(bs[k], CDH_PREFIX)
        ensures k in h
      {
        assert bs[1..][k - 1] == bs[k];
        var i :| 0 <= i < |g| && g[i] == k - 1;
        assert h[i] == k;
      }
    }
  }

  /**
   * The head of `bs` after a stable sort by length: the first of the
   * shortest elements.
   */
  function FirstShortest(bs: seq<string>): (i: nat)
    requires bs != []
    ensures i < |bs|
    ensures forall j :: 0 <= j < |bs| ==> |bs[i]| <= |bs[j]|
    ensures forall j :: 0 <= j < i ==> |bs[j]| > |bs[i]|
  {
    if |bs| == 1 then 0
    else
      var k := FirstShortest(bs[1..]);
      if |bs[0]| <= |bs[1..][k]| then 0 else k + 1
  }

  /**
   * The branch names `git branch -a --contains` printed, one per line, each
   * without the current-branch marker and the remote prefix.
   */
  function ListedBranches(stdout: string): seq<string>
  {
    NormalizeAll(Split(GitOutput(stdout), '\n'))
  }

  /**
   * The cdh-* name of `bs` with the fewest characters, the earliest listed
   * on a tie (the head of the stably sorted cdh-* names), or None.
   */
  function ShortestCdh(bs: seq<string>): (r: Option<string>)
    ensures r.Some? ==> StartsWith(r.value, CDH_PREFIX) && r.value in bs
    ensures r.Some? ==> forall b :: b in bs && StartsWith(b, CDH_PREFIX) ==> |r.value| <= |b|
    ensures r.None? <==> forall b :: b in bs ==> !StartsWith(b, CDH_PREFIX)
    ensures r.Some? ==> var cdh := CdhOnly(bs);
      forall j :: 0 <= j < |cdh| && |cdh[j]| <= |r.value| && (forall k :: 0 <= k < j ==> |cdh[k]| > |cdh[j]|)
                  ==> cdh[j] == r.value
  {
    var cdh := CdhOnly(bs);
    if cdh == [] then None
    else
      ShortestListedFirst(cdh);
      Some(cdh[FirstShortest(cdh)])
  }

  /**
   * `cdh_best_branch`: among the branches containing the revision (the
   * output of `git branch -a --contains`), the cdh-* branch with the
   * shortest name, the earliest listed on a tie; IndexError when there is none.
   */
  function BestBranch(stdout: string): (r: Result<string, CdhError>)
    ensures r.Success? ==> StartsWith(r.value, CDH_PREFIX)
    ensures r.Success? ==> r.value in ListedBranches(stdout)
    ensures r.Success? ==> forall b :: b in ListedBranches(stdout) && StartsWith(b, CDH_PREFIX) ==> |r.value| <= |b|
    ensures r.Failure? <==> forall b :: b in ListedBranches(stdout) ==> !StartsWith(b, CDH_PREFIX)
    ensures r.Success? ==> ShortestCdh(ListedBranches(stdout)).Some? && r.value == ShortestCdh(ListedBranches(stdout)).value
  {
    match ShortestCdh(ListedBranches(stdout))
    case None => Failure(NoCdhBranch)
    case Some(b) => Success(b)
  }

  /** The first of the shortest is the only element as short as it with every earlier one longer. */
  lemma ShortestListedFirst(bs: seq<string>)
    requires bs != []
    ensures forall j :: 0 <= j < |bs| && |bs[j]| <= |bs[FirstShortest(bs)]| && (forall k :: 0 <= k < j ==> |bs[k]| > |bs[j]|)
                        ==> j == FirstShortest(bs)
  {
    var i := FirstShortest(bs);
    forall j | 0 <= j < |bs| && |bs[j]| <= |bs[i]| && (forall k :: 0 <= k < j ==> |bs[k]| > |bs[j]|)
      ensures j == i
    {
    }
  }

  // ---------------------------------------------------------------------------
  // cdh_ancestor_branch
  // ---------------------------------------------------------------------------

  predicate IsVersionChar(c: char) { IsDigit(c) || c == '.' }

  /** `[\d\.]+`: a release version made of digits and dots. */
  predicate IsReleaseVersion(v: string)
  {
    |v| >= 1 && forall i :: 0 <= i < |v| ==> IsVersionChar(v[i])
  }

  /** The last index holding '.' or '+', or -1. */
  function LastSeparator(s: string): (p: int)
    ensures -1 <= p < |s|
    ensures p >= 0 ==> s[p] == '.' || s[p] == '+'
    ensures forall j :: p < j < |s| ==> s[j] != '.' && s[j] != '+'
    decreases |s|
  {
    if s == [] then -1
    else if s[|s| - 1] == '.' || s[|s| - 1] == '+' then |s| - 1
    else LastSeparator(s[..|s| - 1])
  }

  /** Index `p` holds the separator of a non-empty last component of `s`. */
  predicate LastComponentAt(s: string, p: int)
  {
    0 <= p < |s| - 1 && (s[p] == '.' || s[p] == '+')
    && forall j :: p < j < |s| ==> s[j] != '.' && s[j] != '+'
  }

  /**
   * `re.sub(r'[\.\+][^\.\+]+?$', '', s)`: only the last '.' or '+' can be
   * followed by separator-free text up to the end, so the last component is
   * cut off, together with its separator, when it is not empty.
   */
  function ChopLastComponent(s: string): (r: string)
    ensures |r| <= |s| && r == s[..|r|]
    ensures r != s ==> s[|r|] == '.' || s[|r|] == '+'
    ensures r != s ==> |r| < |s| - 1 && forall j :: |r| < j < |s| ==> s[j] != '.' && s[j] != '+'
    ensures r == s <==> forall p :: !LastComponentAt(s, p)
    ensures forall p :: LastComponentAt(s, p) ==> r == s[..p]
  {
    var p := LastSeparator(s);
    if 0 <= p < |s| - 1 then
      assert LastComponentAt(s, p);
      s[..p]
    else s
  }

  /** `cdh_ancestor_branch`. */
  function AncestorBranch(branch: string): (r: Result<string, CdhError>)
    ensures r.Failure? <==> !StartsWith(branch, CDH_PREFIX)
  {
    if !StartsWith(branch, CDH_PREFIX) then Failure(NotACdhBranch(branch))
    else
      var v := branch[4..];
      if IsReleaseVersion(v) then
        if Find(v, "18.3") > 0 then Success("apache/tags/release-" + v)
        else Success("cdh-base-" + v)
      else
        Success(ChopLastComponent("origin/" + branch))
  }

  /** A release branch `cdh-V` descends from the Apache release tag (0.18.3 line) or from `cdh-base-V`. */
  lemma AncestorOfRelease(v: string)
    requires IsReleaseVersion(v)
    ensures AncestorBranch(CDH_PREFIX + v) ==
      Success(if Find(v, "18.3") > 0 then "apache/tags/release-" + v else "cdh-base-" + v)
  {
    assert (CDH_PREFIX + v)[4..] == v;
  }

  /** Any other cdh branch descends from the remote branch named by cutting its last component. */
  lemma AncestorOfPatchBranch(branch: string)
    requires StartsWith(branch, CDH_PREFIX) && !IsReleaseVersion(branch[4..])
    ensures AncestorBranch(branch).Success?
    ensures var a := AncestorBranch(branch).value;
      StartsWith(a, "origin/" + CDH_PREFIX) && StartsWith("origin/" + branch, a)
    ensures forall p :: LastComponentAt(branch, p) ==> AncestorBranch(branch).value == "origin/" + branch[..p]
    ensures (forall p :: !LastComponentAt(branch, p)) ==> AncestorBranch(branch).value == "origin/" + branch
  {
    var s := "origin/" + branch;
    var a := ChopLastComponent(s);
    assert s[..11] == "origin/" + CDH_PREFIX;
    // "origin/" holds no separator, so the components of s are those of the branch.
    forall q | LastComponentAt(s, q)
      ensures q >= 7 && LastComponentAt(branch, q - 7)
    {
      forall j | q - 7 < j < |branch|
        ensures branch[j] != '.' && branch[j] != '+'
      {
        assert branch[j] == s[j + 7];
      }
    }
    forall p | LastComponentAt(branch, p)
      ensures LastComponentAt(s, p + 7) && s[..p + 7] == "origin/" + branch[..p]
    {
      forall j | p + 7 < j < |s|
        ensures s[j] != '.' && s[j] != '+'
      {
        assert s[j] == branch[j - 7];
      }
    }
    if a != s {
      // The cut happens at a '.' or '+', and "origin/cdh-" holds neither.
      assert s[|a|] == '.' || s[|a|] == '+';
      assert |a| >= 11;
      assert a[..11] == s[..11];
    }
  }

  // ---------------------------------------------------------------------------
  // cdh_get_version
  // ---------------------------------------------------------------------------

  /**
   * `cdh_get_version(rev)`: the branch's version, then '+' and the number of
   * commits since the merge base when the ancestor is an Apache tag or a
   * cdh-base branch, '.' and that number otherwise.  `branchesStdout` is what
   * `git branch -a --contains rev` printed and `revListStdout` what
   * `git rev-list merge_base..rev` printed.
   */
  function GetVersion(rev: string, branchesStdout: string, revListStdout: string): (r: Result<string, CdhError>)
    ensures r.Failure? <==> !StartsWith(rev, CDH_PREFIX) && BestBranch(branchesStdout).Failure?
  {
    var cur :- if StartsWith(rev, CDH_PREFIX) then Success(rev) else BestBranch(branchesStdout);
    Success(BranchVersion(cur, revListStdout))
  }

  /** The version once the cdh branch `cur` describing the revision is known. */
  function BranchVersion(cur: string, revListStdout: string): string
    requires StartsWith(cur, CDH_PREFIX)
  {
    var baseVersion := cur[4..];
    var ancestor := AncestorBranch(cur).value;
    var count := CountCommits(revListStdout);
    if StartsWith(ancestor, "apache") || StartsWith(ancestor, "cdh-base") then
      baseVersion + "+" + IntToString(count)
    else
      baseVersion + "." + IntToString(count)
  }

  /**
   * The version of a commit on branch `cdh-V` is `V+N` when V is a release
   * version (digits and dots) and `V.N` otherwise, N being the commit count.
   */
  lemma BranchVersionSeparator(b: string, revListStdout: string)
    requires StartsWith(b, CDH_PREFIX)
    ensures var v := b[4..];
      var n := IntToString(CountCommits(revListStdout));
      BranchVersion(b, revListStdout) == if IsReleaseVersion(v) then v + "+" + n else v + "." + n
  {
    var v := b[4..];
    assert b == CDH_PREFIX + v;
    var a := AncestorBranch(b).value;
    if IsReleaseVersion(v) {
      AncestorOfRelease(v);
      assert StartsWith(a, "apache") || StartsWith(a, "cdh-base");
    } else {
      AncestorOfPatchBranch(b);
      assert a[..6] == "origin" && a[..8] == "origin/c";
      assert !StartsWith(a, "apache") && !StartsWith(a, "cdh-base");
    }
  }

  /** A revision on `cdh-V` has version `V+N` for a release version V and `V.N` otherwise. */
  lemma VersionSeparator(v: string, branchesStdout: string, revListStdout: string)
    ensures var n := IntToString(CountCommits(revListStdout));
      GetVersion(CDH_PREFIX + v, branchesStdout, revListStdout) ==
        Success(if IsReleaseVersion(v) then v + "+" + n else v + "." + n)
  {
    var b := CDH_PREFIX + v;
    assert b[..4] == CDH_PREFIX && b[4..] == v;
    BranchVersionSeparator(b, revListStdout);
  }

  /**
   * A revision that is not itself a cdh branch gets the version of the best
   * branch containing it, `cdh-V`: `V+N` or `V.N` as for that branch.
   */
  lemma VersionOfContainingBranch(rev: string, branchesStdout: string, revListStdout: string)
    requires !StartsWith(rev, CDH_PREFIX) && BestBranch(branchesStdout).Success?
    ensures var v := BestBranch(branchesStdout).value[4..];
      var n := IntToString(CountCommits(revListStdout));
      GetVersion(rev, branchesStdout, revListStdout) ==
        Success(if IsReleaseVersion(v) then v + "+" + n else v + "." + n)
  {
    BranchVersionSeparator(BestBranch(branchesStdout).value, revListStdout);
  }

  /** The unit test's expectation for the 0.18.3 release branch. */
  lemma AncestorOf0183()
    ensures AncestorBranch("cdh-0.18.3") == Success("apache/tags/release-0.18.3")
  {
    var v := "0.18.3";
    assert IsReleaseVersion(v);
    assert Find(v, "18.3") == 2 by {
      assert v[0..4][0] == '0';
      assert v[1..5][0] == '.';
      assert v[2..6] == "18.3";
    }
    AncestorOfRelease(v);
    assert CDH_PREFIX + v == "cdh-0.18.3";
    assert AncestorBranch(CDH_PREFIX + v) == Success("apache/tags/release-" + v);
    assert "apache/tags/release-" + v == "apache/tags/release-0.18.3";
  }

  /** The unit test's expectation for the 0.20.1 release branch. */
  lemma AncestorOf0201()
    ensures AncestorBranch("cdh-0.20.1") == Success("cdh-base-0.20.1")
  {
    var v := "0.20.1";
    assert IsReleaseVersion(v);
    assert Find(v, "18.3") == -1 by {
      assert v[0..4][0] == '0';
      assert v[1..5][0] == '.';
      assert v[2..6][0] == '2';
    }
    AncestorOfRelease(v);
    assert CDH_PREFIX + v == "cdh-0.20.1";
    assert AncestorBranch(CDH_PREFIX + v) == Success("cdh-base-" + v);
    assert "cdh-base-" + v == "cdh-base-0.20.1";
  }

  /**
   * The unit test's expectation for a patch branch, as the code computes
   * it: the ancestor keeps the "origin/" prefix.
   */
  lemma AncestorOfPatch()
    ensures AncestorBranch("cdh-0.18.3+3.4") == Success("origin/cdh-0.18.3+3")
  {
    var b := "cdh-0.18.3+3.4";
    var s := "origin/" + b;
    assert b[..4] == CDH_PREFIX;
    assert !IsReleaseVersion(b[4..]) by { assert b[4..][6] == '+'; }
    assert s == "origin/cdh-0.18.3+3.4";
    assert LastSeparator(s) == 19;
    assert s[..19] == "origin/cdh-0.18.3+3";
  }
}
