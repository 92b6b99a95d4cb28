/**
 * The address recognisers of installer/src/com/cloudera/distribution/dnsregex.py.
 *
 * Each recogniser runs `re.match` (anchored at the start, not at the end) and
 * accepts when the match ends at the end of the string.  The matcher
 * functions below compute where `re.match` ends for each pattern: the
 * patterns are greedy repetitions whose alternatives all end before a
 * character the next element could use, so the first match Python's
 * backtracking engine reports is the greedy one.  The languages are also
 * given declaratively, by splitting on '.', and the two are proved equal.
 */
module DnsRegex {

  import opened Common
  import opened PyStr

  // ---------------------------------------------------------------------------
  // The languages, declaratively
  // ---------------------------------------------------------------------------

  /** `[0-9]{1,10}`: one numeric group of an IP address. */
  predicate IsIpGroup(p: string)
  {
    1 <= |p| <= 10 && AllDigits(p)
  }

  /** The '.'-separated parts of `u` number at most `r` and are all numeric groups. */
  predicate IpGroups(u: string, r: int)
  {
    var parts := Split(u, '.');
    |parts| <= r && forall k :: 0 <= k < |parts| ==> IsIpGroup(parts[k])
  }

  /** An IP address: between one and four dot-separated groups of one to ten digits. */
  predicate IpAddressSpec(s: string)
  {
    IpGroups(s, 4)
  }

  predicate IsLabelChar(c: char)
  {
    IsDigit(c) || IsAsciiLetter(c) || c == '_' || c == '-'
  }

  /** `[A-Za-z][0-9A-Za-z_-]*`: one component of a DNS name. */
  predicate IsLabel(p: string)
  {
    |p| >= 1 && IsAsciiLetter(p[0]) && forall k :: 1 <= k < |p| ==> IsLabelChar(p[k])
  }

  /** A DNS name: dot-separated components, each a letter followed by letters, digits, '_' or '-'. */
  predicate DnsNameSpec(s: string)
  {
    var parts := Split(s, '.');
    forall k :: 0 <= k < |parts| ==> IsLabel(parts[k])
  }

  /** A DNS name, a colon and a non-empty decimal port. */
  predicate DnsNameAndPortSpec(s: string)
  {
    var c := IndexOfChar(s, ':');
    c + 1 < |s| && DnsNameSpec(s[..c]) && AllDigits(s[c + 1..])
  }

  // ---------------------------------------------------------------------------
  // Where `re.match` ends
  // ---------------------------------------------------------------------------

  /** Greedy `[0-9]{0,limit}` at the head of `u`: how many characters it takes. */
  function DigitsPrefix(u: string, limit: nat): (n: nat)
    ensures n <= |u| && n <= limit
    ensures forall k :: 0 <= k < n ==> IsDigit(u[k])
    ensures n < limit && n < |u| ==> !IsDigit(u[n])
    decreases limit
  {
    if limit == 0 || u == [] || !IsDigit(u[0]) then 0
    else 1 + DigitsPrefix(u[1..], limit - 1)
  }

  /** Greedy `(\.[0-9]{1,10}){0,r}` at the head of `t`: how many characters it takes. */
  function MoreIpGroups(t: string, r: nat): (n: nat)
    ensures n <= |t|
    decreases r
  {
    if r == 0 || t == [] || t[0] != '.' then 0
    else
      var g := DigitsPrefix(t[1..], 10);
      if g == 0 then 0 else 1 + g + MoreIpGroups(t[1 + g..], r - 1)
  }

  /** End of `re.match("[0-9]{1,10}(\.[0-9]{1,10}){0,3}", s)`, or None. */
  function IpMatch(s: string): (m: Option<nat>)
    ensures m.Some? ==> 1 <= m.value <= |s|
  {
    var g := DigitsPrefix(s, 10);
    if g == 0 then None else Some(g + MoreIpGroups(s[g..], 3))
  }

  /** `isIpAddress(s)`. */
  predicate IsIpAddress(s: string)
  {
    var m := IpMatch(s);
    m.Some? && m.value == |s|
  }

  /** Greedy `[0-9A-Za-z_-]*` at the head of `u`. */
  function LabelCharsPrefix(u: string): (n: nat)
    ensures n <= |u|
    ensures forall k :: 0 <= k < n ==> IsLabelChar(u[k])
    ensures n < |u| ==> !IsLabelChar(u[n])
  {
    if u == [] || !IsLabelChar(u[0]) then 0 else 1 + LabelCharsPrefix(u[1..])
  }

  /** Greedy `[A-Za-z][0-9A-Za-z_-]*` at the head of `u`: 0 when it does not match. */
  function LabelPrefix(u: string): (n: nat)
    ensures n <= |u|
    ensures n > 0 ==> IsLabel(u[..n])
    ensures n > 0 && n < |u| ==> !IsLabelChar(u[n])
  {
    if u == [] || !IsAsciiLetter(u[0]) then 0
    else 1 + LabelCharsPrefix(u[1..])
  }

  /** Greedy `(\.[A-Za-z][0-9A-Za-z_-]*)*` at the head of `t`. */
  function MoreLabels(t: string): (n: nat)
    ensures n <= |t|
    decreases |t|
  {
    if t == [] || t[0] != '.' then 0
    else
      var g := LabelPrefix(t[1..]);
      if g == 0 then 0 else 1 + g + MoreLabels(t[1 + g..])
  }

  /** End of `re.match(dnsNameRegexStr, s)`, or None. */
  function DnsMatch(s: string): (m: Option<nat>)
    ensures m.Some? ==> 1 <= m.value <= |s|
  {
    var g := LabelPrefix(s);
    if g == 0 then None else Some(g + MoreLabels(s[g..]))
  }

  /** `isDnsName(s)`. */
  predicate IsDnsName(s: string)
  {
    var m := DnsMatch(s);
    m.Some? && m.value == |s|
  }

  /**
   * End of `re.match(dnsNameRegexStr + "\:[0-9]+", s)`, or None.  When the
   * greedy name is not followed by ':' no shorter one is either: every
   * shorter alternative stops before a name character or a '.'.
   */
  function DnsNameAndPortMatch(s: string): (m: Option<nat>)
    ensures m.Some? ==> m.value <= |s|
  {
    match DnsMatch(s)
    case None => None
    case Some(e) =>
      if e < |s| && s[e] == ':' then
        var d := DigitsPrefix(s[e + 1..], |s|);
        if d == 0 then None else Some(e + 1 + d)
      else None
  }

  /** `isDnsNameAndPort(s)`. */
  predicate IsDnsNameAndPort(s: string)
  {
    var m := DnsNameAndPortMatch(s);
    m.Some? && m.value == |s|
  }

  // ---------------------------------------------------------------------------
  // The recognisers accept exactly the declared languages
  // ---------------------------------------------------------------------------

  /** The same languages, peeling one '.'-separated part at a time. */
  predicate IpGroupsRec(u: string, r: int)
    decreases |u|
  {
    var i := IndexOfChar(u, '.');
    r >= 1 && IsIpGroup(u[..i]) && (i == |u| || IpGroupsRec(u[i + 1..], r - 1))
  }

  predicate DnsNameRec(u: string)
    decreases |u|
  {
    var i := IndexOfChar(u, '.');
    IsLabel(u[..i]) && (i == |u| || DnsNameRec(u[i + 1..]))
  }

  /** A list of parts is all numeric groups exactly when its head is one and its tail is all groups. */
  lemma GroupsCons(h: string, rest: seq<string>)
    ensures (forall k :: 0 <= k < |[h] + rest| ==> IsIpGroup(([h] + rest)[k]))
        <==> IsIpGroup(h) && forall k :: 0 <= k < |rest| ==> IsIpGroup(rest[k])
  {
    var p := [h] + rest;
    assert p[0] == h;
    assert forall k :: 0 <= k < |rest| ==> p[k + 1] == rest[k];
    if IsIpGroup(h) && forall k :: 0 <= k < |rest| ==> IsIpGroup(rest[k]) {
      forall k | 0 <= k < |p| ensures IsIpGroup(p[k]) {
        if k > 0 { assert p[k] == rest[k - 1]; }
      }
    }
  }

  lemma {:induction false} IpGroupsRecEquiv(u: string, r: int)
    ensures IpGroups(u, r) <==> IpGroupsRec(u, r)
    decreases |u|
  {
    var i := IndexOfChar(u, '.');
    if i < |u| {
      var rest := Split(u[i + 1..], '.');
      assert Split(u, '.') == [u[..i]] + rest;
      IpGroupsRecEquiv(u[i + 1..], r - 1);
      GroupsCons(u[..i], rest);
      assert IpGroups(u, r) <==> IsIpGroup(u[..i]) && IpGroups(u[i + 1..], r - 1);
      assert IpGroupsRec(u, r) <==> r >= 1 && IsIpGroup(u[..i]) && IpGroupsRec(u[i + 1..], r - 1);
    } else {
      var parts := Split(u, '.');
      assert parts == [u];
      assert u[..i] == u;
      if r >= 1 && IsIpGroup(u) {
        forall k | 0 <= k < |parts| ensures IsIpGroup(parts[k]) { assert parts[k] == u; }
      }
      if IpGroups(u, r) { assert IsIpGroup(parts[0]); }
    }
  }

  /** A list of parts is all labels exactly when its head is one and its tail is all labels. */
  lemma LabelsCons(h: string, rest: seq<string>)
    ensures (forall k :: 0 <= k < |[h] + rest| ==> IsLabel(([h] + rest)[k]))
        <==> IsLabel(h) && forall k :: 0 <= k < |rest| ==> IsLabel(rest[k])
  {
    var p := [h] + rest;
    assert p[0] == h;
    assert forall k :: 0 <= k < |rest| ==> p[k + 1] == rest[k];
    if IsLabel(h) && forall k :: 0 <= k < |rest| ==> IsLabel(rest[k]) {
      forall k | 0 <= k < |p| ensures IsLabel(p[k]) {
        if k > 0 { assert p[k] == rest[k - 1]; }
      }
    }
  }

  lemma {:induction false} DnsNameRecEquiv(u: string)
    ensures DnsNameSpec(u) <==> DnsNameRec(u)
    decreases |u|
  {
    var i := IndexOfChar(u, '.');
    if i < |u| {
      var rest := Split(u[i + 1..], '.');
      assert Split(u, '.') == [u[..i]] + rest;
      DnsNameRecEquiv(u[i + 1..]);
      LabelsCons(u[..i], rest);
      assert DnsNameSpec(u) <==> IsLabel(u[..i]) && DnsNameSpec(u[i + 1..]);
      assert DnsNameRec(u) <==> IsLabel(u[..i]) && DnsNameRec(u[i + 1..]);
    } else {
      var parts := Split(u, '.');
      assert parts == [u];
      assert u[..i] == u;
      if IsLabel(u) {
        forall k | 0 <= k < |parts| ensures IsLabel(parts[k]) { assert parts[k] == u; }
      }
      if DnsNameSpec(u) { assert IsLabel(parts[0]); }
    }
  }

  /** The first '.' of `u` is at `g` when none comes earlier and `g` holds one or is the end. */
  lemma FirstDotAt(u: string, g: nat)
    requires g <= |u|
    requires forall k :: 0 <= k < g ==> u[k] != '.'
    requires g == |u| || u[g] == '.'
    ensures IndexOfChar(u, '.') == g
  {
  }

  /** Greedy digits stop at the first '.' exactly when the part before it is a group. */
  lemma DigitsMeetDot(u: string)
    ensures var g, i := DigitsPrefix(u, 10), IndexOfChar(u, '.');
      IsIpGroup(u[..i]) <==> g > 0 && (g == |u| || u[g] == '.')
  {
    var g, i := DigitsPrefix(u, 10), IndexOfChar(u, '.');
    if IsIpGroup(u[..i]) {
      assert forall k :: 0 <= k < i ==> IsDigit(u[k]) by {
        forall k | 0 <= k < i ensures IsDigit(u[k]) { assert u[..i][k] == u[k]; }
      }
      assert g == i;
    }
    if g > 0 && (g == |u| || u[g] == '.') {
      FirstDotAt(u, g);
      assert forall k :: 0 <= k < g ==> IsDigit(u[..g][k]);
    }
  }

  /** A greedy component stops at the first '.' exactly when the part before it is a component. */
  lemma LabelMeetsDot(u: string)
    ensures var g, i := LabelPrefix(u), IndexOfChar(u, '.');
      IsLabel(u[..i]) <==> g > 0 && (g == |u| || u[g] == '.')
  {
    var g, i := LabelPrefix(u), IndexOfChar(u, '.');
    if IsLabel(u[..i]) {
      assert IsAsciiLetter(u[0]);
      assert forall k :: 1 <= k < i ==> IsLabelChar(u[k]) by {
        forall k | 1 <= k < i ensures IsLabelChar(u[k]) { assert u[..i][k] == u[k]; }
      }
      assert g == i;
    }
    if g > 0 && (g == |u| || u[g] == '.') {
      assert forall k :: 0 <= k < g ==> u[k] != '.' by {
        forall k | 0 <= k < g ensures u[k] != '.' { assert u[..g][k] == u[k]; }
      }
      FirstDotAt(u, g);
    }
  }

  /** One step of the component-wise reading, told by where the greedy digits stop. */
  lemma IpGroupsRecStep(u: string, r: int)
    ensures var g := DigitsPrefix(u, 10);
      IpGroupsRec(u, r) <==> r >= 1 && g > 0 && (g == |u| || (u[g] == '.' && IpGroupsRec(u[g + 1..], r - 1)))
  {
    var g, i := DigitsPrefix(u, 10), IndexOfChar(u, '.');
    DigitsMeetDot(u);
    assert IpGroupsRec(u, r) == (r >= 1 && IsIpGroup(u[..i]) && (i == |u| || IpGroupsRec(u[i + 1..], r - 1)));
    if g > 0 && (g == |u| || u[g] == '.') {
      assert i == g by { FirstDotAt(u, g); }
    }
  }

  lemma {:induction false} MoreIpGroupsFull(t: string, r: nat)
    ensures MoreIpGroups(t, r) == |t| <==> t == [] || (t[0] == '.' && IpGroupsRec(t[1..], r))
    decreases r
  {
    if t != [] && t[0] == '.' {
      var u := t[1..];
      var g := DigitsPrefix(u, 10);
      IpGroupsRecStep(u, r);
      if r > 0 && g > 0 {
        assert t[1 + g..] == u[g..];
        MoreIpGroupsFull(u[g..], r - 1);
        if g < |u| {
          assert u[g..][1..] == u[g + 1..];
        }
      }
    }
  }

  /** `isIpAddress` accepts exactly one to four dot-separated groups of one to ten digits. */
  lemma IsIpAddressCorrect(s: string)
    ensures IsIpAddress(s) <==> IpAddressSpec(s)
  {
    var g := DigitsPrefix(s, 10);
    IpGroupsRecEquiv(s, 4);
    IpGroupsRecStep(s, 4);
    if g > 0 {
      MoreIpGroupsFull(s[g..], 3);
      if g < |s| {
        assert s[g..][1..] == s[g + 1..];
      }
    }
  }

  /** One step of the component-wise reading, told by where the greedy component stops. */
  lemma DnsNameRecStep(u: string)
    ensures var g := LabelPrefix(u);
      DnsNameRec(u) <==> g > 0 && (g == |u| || (u[g] == '.' && DnsNameRec(u[g + 1..])))
  {
    var g, i := LabelPrefix(u), IndexOfChar(u, '.');
    LabelMeetsDot(u);
    assert DnsNameRec(u) == (IsLabel(u[..i]) && (i == |u| || DnsNameRec(u[i + 1..])));
    if g > 0 && (g == |u| || u[g] == '.') {
      assert i == g by {
        assert forall k :: 0 <= k < g ==> u[k] != '.' by {
          forall k | 0 <= k < g ensures u[k] != '.' { assert u[..g][k] == u[k]; }
        }
        FirstDotAt(u, g);
      }
    }
  }

  lemma {:induction false} MoreLabelsFull(t: string)
    ensures MoreLabels(t) == |t| <==> t == [] || (t[0] == '.' && DnsNameRec(t[1..]))
    decreases |t|
  {
    if t != [] && t[0] == '.' {
      var u := t[1..];
      var g := LabelPrefix(u);
      DnsNameRecStep(u);
      if g > 0 {
        assert t[1 + g..] == u[g..];
        MoreLabelsFull(u[g..]);
        if g < |u| {
          assert u[g..][1..] == u[g + 1..];
        }
      }
    }
  }

  /** `isDnsName` accepts exactly the dot-separated lists of components. */
  lemma IsDnsNameCorrect(s: string)
    ensures IsDnsName(s) <==> DnsNameSpec(s)
  {
    var g := LabelPrefix(s);
    DnsNameRecEquiv(s);
    DnsNameRecStep(s);
    if g > 0 {
      MoreLabelsFull(s[g..]);
      if g < |s| {
        assert s[g..][1..] == s[g + 1..];
      }
    }
  }

  /** A ':' ends a DNS match exactly as the end of the string does. */
  lemma {:induction false} LabelCharsStopAtColon(v: string, w: string)
    requires ':' !in v
    ensures LabelCharsPrefix(v + [':'] + w) == LabelCharsPrefix(v)
    decreases |v|
  {
    if v != [] {
      assert (v + [':'] + w)[1..] == v[1..] + [':'] + w;
      LabelCharsStopAtColon(v[1..], w);
    }
  }

  lemma LabelStopsAtColon(v: string, w: string)
    requires ':' !in v
    ensures LabelPrefix(v + [':'] + w) == LabelPrefix(v)
  {
    if v != [] {
      assert (v + [':'] + w)[1..] == v[1..] + [':'] + w;
      LabelCharsStopAtColon(v[1..], w);
    }
  }

  lemma {:induction false} MoreLabelsStopAtColon(v: string, w: string)
    requires ':' !in v
    ensures MoreLabels(v + [':'] + w) == MoreLabels(v)
    decreases |v|
  {
    var t := v + [':'] + w;
    if v != [] && v[0] == '.' {
      assert t[0] == '.';
      DropInsideColonFree(v, w, 1);
      var u := v[1..];
      LabelStopsAtColon(u, w);
      var g := LabelPrefix(u);
      if g > 0 {
        DropInsideColonFree(u, w, g);
        assert t[1 + g..] == t[1..][g..];
        MoreLabelsStopAtColon(u[g..], w);
        assert v[1 + g..] == u[g..];
      }
    }
  }

  /** Cutting a prefix off `v + [':'] + w` inside `v` leaves a colon-free part, the colon and `w`. */
  lemma DropInsideColonFree(v: string, w: string, g: nat)
    requires ':' !in v && g <= |v|
    ensures ':' !in v[g..]
    ensures (v + [':'] + w)[g..] == v[g..] + [':'] + w
  {
    forall k | 0 <= k < |v| - g ensures v[g..][k] != ':' { assert v[g..][k] == v[g + k]; }
  }

  lemma DnsMatchStopsAtColon(v: string, w: string)
    requires ':' !in v
    ensures DnsMatch(v + [':'] + w).Some? == DnsMatch(v).Some?
    ensures DnsMatch(v).Some? ==> DnsMatch(v + [':'] + w).value == DnsMatch(v).value
  {
    LabelStopsAtColon(v, w);
    var g := LabelPrefix(v);
    if g > 0 {
      DropInsideColonFree(v, w, g);
      MoreLabelsStopAtColon(v[g..], w);
    }
  }

  /** Greedy digits take the whole string exactly when it is all digits. */
  lemma DigitsPrefixAll(u: string)
    ensures DigitsPrefix(u, |u|) == |u| <==> AllDigits(u)
  {
  }

  /** `isDnsNameAndPort` accepts exactly a DNS name, a ':' and a non-empty decimal port. */
  lemma IsDnsNameAndPortCorrect(s: string)
    ensures IsDnsNameAndPort(s) <==> DnsNameAndPortSpec(s)
  {
    var c := IndexOfChar(s, ':');
    if c < |s| {
      var v, w := s[..c], s[c + 1..];
      assert s == v + [':'] + w;
      assert ':' !in v;
      DnsMatchStopsAtColon(v, w);
      IsDnsNameCorrect(v);
      DigitsPrefixAll(w);
      match DnsMatch(s)
      case None =>
      case Some(e) =>
        if e < |s| && s[e] == ':' {
          assert e == c;
          assert s[e + 1..] == w;
        }
    }
  }

  /** Greedy digits stop at a '/' just as they stop at the end of the string. */
  lemma {:induction false} DigitsStopAtSlash(w: string, a: nat, b: nat)
    requires a >= |w| + 1 && b >= |w|
    ensures DigitsPrefix(w + ['/'], a) == DigitsPrefix(w, b)
    decreases |w|
  {
    if w != [] && IsDigit(w[0]) {
      assert (w + ['/'])[1..] == w[1..] + ['/'];
      DigitsStopAtSlash(w[1..], a - 1, b - 1);
    }
  }

  /** Once the name stops at a ':', the match is decided by the digits after it. */
  lemma PortAfterColon(s: string, e: nat)
    requires DnsMatch(s).Some? && DnsMatch(s).value == e && e < |s| && s[e] == ':'
    ensures var d := DigitsPrefix(s[e + 1..], |s|);
      DnsNameAndPortMatch(s).Some? == (d > 0) &&
      (d > 0 ==> DnsNameAndPortMatch(s).value == e + 1 + d)
  {
  }

  /**
   * Appending a '/' leaves the `dnsNameAndPortStr` match unchanged, so the
   * pattern followed by '/' matches up to that '/' exactly when the text
   * before it is a name and port.
   */
  lemma SlashLeavesNameAndPort(x: string)
    ensures DnsNameAndPortMatch(x + ['/']).Some? == DnsNameAndPortMatch(x).Some?
    ensures DnsNameAndPortMatch(x).Some? ==>
      DnsNameAndPortMatch(x + ['/']).value == DnsNameAndPortMatch(x).value
  {
    var c := IndexOfChar(x, ':');
    var t := x + ['/'];
    if c < |x| {
      var v, w := x[..c], x[c + 1..];
      assert x == v + [':'] + w;
      assert t == v + [':'] + (w + ['/']);
      assert ':' !in v;
      DnsMatchStopsAtColon(v, w);
      DnsMatchStopsAtColon(v, w + ['/']);
      match DnsMatch(v)
      case None =>
      case Some(e) =>
        assert DnsMatch(x).value == e && DnsMatch(t).value == e;
        if e == c {
          assert x[e] == ':' && t[e] == ':';
          assert x[e + 1..] == w && t[e + 1..] == w + ['/'];
          DigitsStopAtSlash(w, |t|, |x|);
          PortAfterColon(x, e);
          PortAfterColon(t, e);
        } else {
          assert x[e] != ':' && t[e] != ':';
          assert DnsNameAndPortMatch(x).None? && DnsNameAndPortMatch(t).None?;
        }
    } else {
      assert ':' !in t;
      assert DnsNameAndPortMatch(x).None? && DnsNameAndPortMatch(t).None?;
    }
  }

  // ---------------------------------------------------------------------------
  // Consequences the installers rely on
  // ---------------------------------------------------------------------------

  /** No string is both an IP address and a DNS name: one starts with a digit, the other with a letter. */
  lemma IpAndDnsDisjoint(s: string)
    ensures !(IsIpAddress(s) && IsDnsName(s))
  {
  }

  /** The empty string is none of the three. */
  lemma EmptyRejected()
    ensures !IsIpAddress("") && !IsDnsName("") && !IsDnsNameAndPort("")
  {
  }

  /** A string ending in a character that no component or separator uses is not a DNS name. */
  lemma {:induction false} TrailingCharacterRejected(s: string, c: char)
    requires !IsLabelChar(c) && c != '.'
    ensures !IsDnsName(s + [c])
    decreases |s|
  {
    IsDnsNameCorrect(s + [c]);
    DnsNameRecEquiv(s + [c]);
    var t := s + [c];
    var i := IndexOfChar(t, '.');
    if i < |t| {
      assert i < |s|;
      assert t[i + 1..] == s[i + 1..] + [c];
      TrailingCharacterRejected(s[i + 1..], c);
      IsDnsNameCorrect(s[i + 1..] + [c]);
      DnsNameRecEquiv(s[i + 1..] + [c]);
    } else {
      assert t[..i][|t| - 1] == c;
    }
  }
}
