/**
 * installer/src/com/cloudera/distribution/packages/hadoopinstall.py: the
 * Hadoop component's configure stage and the hadoop-site.xml it writes.
 *
 * The master address must be a DNS name: it is refused whenever the IP
 * pattern matches a prefix of it and accepted only when the DNS pattern does.
 * The hadoop-site settings either come from a user-supplied file (which must
 * exist) or are typed in, key by key, in an interactive run, where the
 * integer defaults offered are clamped into fixed ranges.
 *
 * The constants the code imports (the clamp bounds, the list of final keys)
 * are parameters here.  The shell call that finds the host name, the file
 * system and the prompts are inputs: `hostnameLines` is the output of
 * `hostname --fqdn` (None when the command failed), `existing` the set of
 * paths that exist, `prompted` and `answers` what the prompts ended with.
 */
module HadoopInstall {

  import opened Common
  import opened PyStr
  import opened DnsRegex
  import opened ToolInstall

  /** A value of the hadoop-site dictionary, as the prompts return it. */
  datatype SiteValue = Str(s: string) | Int(i: int) | Bool(b: bool)

  /** One `<property>` element of hadoop-site.xml. */
  datatype SiteProperty = SiteProperty(name: string, value: string, final: bool)

  /** Errors that are not InstallError: a missing dictionary key, a call with the wrong number of arguments. */
  datatype PyError = KeyError(key: string) | TypeError(msg: string) | Install(e: InstallError)

  const MASTER_NOT_SET := InstallError("Master address not set")
  const MASTER_FORMAT := InstallError("Master address format error")
  const NO_SITE_FILE := InstallError("No hadoop site file specified")
  const SITE_FILE_MISSING := InstallError("Could not find hadoop site file")

  const DFS_HOSTS_FILE := "dfs.hosts"
  const DFS_EXCLUDE_FILE := "dfs.hosts.exclude"

  // ---------------------------------------------------------------------------
  // The master address
  // ---------------------------------------------------------------------------

  predicate IsMasterNameChar(c: char)
  {
    IsDigit(c) || IsAsciiLetter(c) || c == '.' || c == '_' || c == '-'
  }

  /** Greedy `[0-9A-Za-z\._-]*` at the head of `u`. */
  function MasterNameCharsPrefix(u: string): (n: nat)
    ensures n <= |u|
    ensures forall k :: 0 <= k < n ==> IsMasterNameChar(u[k])
    ensures n < |u| ==> !IsMasterNameChar(u[n])
  {
    if u == [] || !IsMasterNameChar(u[0]) then 0 else 1 + MasterNameCharsPrefix(u[1..])
  }

  /** End of `re.match("[A-Za-z][0-9A-Za-z\._-]*", s)`, or None: it matches exactly when `s` starts with a letter. */
  function MasterNameMatch(s: string): (m: Option<nat>)
    ensures m.Some? <==> |s| > 0 && IsAsciiLetter(s[0])
    ensures m.Some? ==> 1 <= m.value <= |s| && forall k :: 1 <= k < m.value ==> IsMasterNameChar(s[k])
  {
    if s == [] || !IsAsciiLetter(s[0]) then None else Some(1 + MasterNameCharsPrefix(s[1..]))
  }

  /** `ipAddrRegex.match` finds a prefix exactly when the string starts with a digit. */
  lemma IpPrefixIffDigit(s: string)
    ensures IpMatch(s).Some? <==> |s| > 0 && IsDigit(s[0])
  {
    if |s| > 0 && IsDigit(s[0]) {
      assert DigitsPrefix(s, 10) != 0;
    }
  }

  /**
   * The final check of `configMasterAddress`: an address the IP pattern
   * matches a prefix of is refused, so is one the DNS pattern does not.  The
   * accepted addresses are exactly those that begin with an ASCII letter.
   */
  function MasterAddressCheck(h: string): (err: Option<InstallError>)
    ensures err.None? <==> |h| > 0 && IsAsciiLetter(h[0])
    ensures err.Some? ==> err == Some(MASTER_FORMAT)
  {
    IpPrefixIffDigit(h);
    if IpMatch(h).Some? then Some(MASTER_FORMAT)
    else if MasterNameMatch(h).None? then Some(MASTER_FORMAT)
    else None
  }

  /**
   * The default master host: the --hadoop-master property, else the first
   * line of `hostname --fqdn` stripped of white space, else nothing (no
   * output, or the command failed).
   */
  function DefaultHostName(masterProperty: Option<string>, hostnameLines: Option<seq<string>>): (h: Option<string>)
    ensures masterProperty.Some? ==> h == masterProperty
    ensures masterProperty.None? ==> (h.None? <==> hostnameLines.None? || hostnameLines.value == [])
    ensures masterProperty.None? && h.Some? ==> h.value == Strip(hostnameLines.value[0])
  {
    if masterProperty.Some? then masterProperty
    else if hostnameLines.None? || hostnameLines.value == [] then None
    else Some(Strip(hostnameLines.value[0]))
  }

  // ---------------------------------------------------------------------------
  // Integer defaults offered by the interactive configuration
  // ---------------------------------------------------------------------------

  /** `min(hi, max(lo, x))`. */
  function Clamp(lo: int, hi: int, x: int): (r: int)
    ensures r <= hi
    ensures lo <= hi ==> lo <= r
    ensures lo <= x <= hi ==> r == x
    ensures x < lo && lo <= hi ==> r == lo
    ensures x > hi ==> r == hi
  {
    var y := if x < lo then lo else x;
    if y > hi then hi else y
  }

  /** `int(math.ceil(numSlaves / 2))` as written: `/` on two Python 2 integers already rounds down, so the ceiling changes nothing. */
  function MasterThreadsAsWritten(numSlaves: nat): (r: nat)
    ensures 2 * r <= numSlaves < 2 * r + 2
  {
    numSlaves / 2
  }

  /** Half the slaves, rounded up: what the ceiling is evidently there for. */
  function CeilHalf(n: nat): (r: nat)
    ensures n <= 2 * r <= n + 1
  {
    (n + 1) / 2
  }

  /** With three slaves the code offers one thread where rounding up gives two. */
  lemma MasterThreadsRoundDown()
    ensures MasterThreadsAsWritten(3) == 1 && CeilHalf(3) == 2
  {
  }

  /** The two agree exactly on an even number of slaves. */
  lemma MasterThreadsAgreeIffEven(n: nat)
    ensures MasterThreadsAsWritten(n) == CeilHalf(n) <==> n % 2 == 0
  {
  }

  /** Default NameNode and JobTracker thread count: half the slaves, rounded up, clamped into [lo, hi]. */
  function DefaultMasterThreads(numSlaves: nat, lo: int, hi: int): (r: int)
    ensures r <= hi
    ensures lo <= hi ==> lo <= r
    ensures lo <= CeilHalf(numSlaves) <= hi ==> numSlaves <= 2 * r <= numSlaves + 1
  {
    Clamp(lo, hi, CeilHalf(numSlaves))
  }

  /** Default parallel copies: the reduces per job, clamped into [lo, hi]. */
  function DefaultParallelCopies(reducesPerJob: int, lo: int, hi: int): (r: int)
    ensures r <= hi
    ensures lo <= hi ==> lo <= r
    ensures lo <= reducesPerJob <= hi ==> r == reducesPerJob
  {
    Clamp(lo, hi, reducesPerJob)
  }

  /** The integer square root, `floor(sqrt(n))`. */
  function ISqrt(n: nat): (r: nat)
    ensures r * r <= n < (r + 1) * (r + 1)
  {
    if n == 0 then 0
    else
      var s := ISqrt(n - 1);
      if (s + 1) * (s + 1) <= n then
        assert (s + 1) * (s + 1) == n;
        assert (s + 2) * (s + 2) == n + 2 * s + 3;
        s + 1
      else s
  }

  /** Default submit replication: the square root of the slave count rounded down, clamped into [lo, hi]. */
  function DefaultSubmitReplication(numSlaves: nat, lo: int, hi: int): (r: int)
    ensures r <= hi
    ensures lo <= hi ==> lo <= r
    ensures lo <= ISqrt(numSlaves) <= hi ==> r * r <= numSlaves < (r + 1) * (r + 1)
  {
    Clamp(lo, hi, ISqrt(numSlaves))
  }

  /** Default `mapred.child.ulimit` in KB: twice the per-task heap, which is given in MB. */
  function DefaultChildUlimit(ramPerTaskInMb: nat): (kb: nat)
    ensures kb * 1024 == 2 * (ramPerTaskInMb * 1024 * 1024)
    ensures kb % 2048 == 0
  {
    ramPerTaskInMb * 1024 * 2
  }

  // ---------------------------------------------------------------------------
  // hadoop-site.xml
  // ---------------------------------------------------------------------------

  /** `"%s" % v` for a dictionary value. */
  function SiteValueString(v: SiteValue): string
  {
    match v
    case Str(s) => s
    case Int(i) => IntToString(i)
    case Bool(b) => BoolToString(b)
  }

  /** The property written for one dictionary key: marked final exactly when the key is in the final list. */
  function UserProperty(key: string, v: SiteValue, finals: seq<string>): (p: SiteProperty)
    ensures p.name == key && p.value == SiteValueString(v)
    ensures p.final <==> key in finals
  {
    SiteProperty(key, SiteValueString(v), key in finals)
  }

  /** The common prefix of the socket factory properties. */
  const SOCKET_FACTORY := "hadoop.rpc.socket.factory.class."

  lemma ConcatStartsWith(a: string, b: string)
    ensures StartsWith(a + b, a)
  {
    assert (a + b)[..|a|] == a;
  }

  /** The properties every generated file ends with. */
  const FIXED_EPILOGUE: seq<SiteProperty> := [
    SiteProperty("mapred.output.compression.type", "BLOCK", false),
    SiteProperty(SOCKET_FACTORY + "default", "org.apache.hadoop.net.StandardSocketFactory", true),
    SiteProperty(SOCKET_FACTORY + "ClientProtocol", "", true),
    SiteProperty(SOCKET_FACTORY + "JobSubmissionProtocol", "", true)
  ]

  const LZO_CODEC := "org.apache.hadoop.io.compress.LzoCodec"

  /** The properties that follow when LZO compression can be used. */
  const LZO_EPILOGUE: seq<SiteProperty> := [
    SiteProperty("mapred.map.output.compression.codec", LZO_CODEC, false),
    SiteProperty("mapred.compress.map.output", "true", false),
    SiteProperty("mapred.compress.map.output.codec", LZO_CODEC, false),
    SiteProperty("io.compression.codecs",
      "org.apache.hadoop.io.compress.DefaultCodec,org.apache.hadoop.io.compress.GzipCodec," + LZO_CODEC, false)
  ]

  /** The fixed properties every generated file ends with, and the LZO ones when LZO can be used. */
  function EpilogueProperties(canUseLzo: bool): (ps: seq<SiteProperty>)
    ensures |ps| == if canUseLzo then 8 else 4
    ensures ps[0] == SiteProperty("mapred.output.compression.type", "BLOCK", false)
    ensures forall i :: 1 <= i < 4 ==> ps[i].final && StartsWith(ps[i].name, SOCKET_FACTORY)
    ensures forall i :: 4 <= i < |ps| ==> !ps[i].final
  {
    ConcatStartsWith(SOCKET_FACTORY, "default");
    ConcatStartsWith(SOCKET_FACTORY, "ClientProtocol");
    ConcatStartsWith(SOCKET_FACTORY, "JobSubmissionProtocol");
    if canUseLzo then FIXED_EPILOGUE + LZO_EPILOGUE else FIXED_EPILOGUE
  }

  /** How the element of a final property ends. */
  const FINAL_TAIL := "</final>\n</property>\n"

  /** What follows the value in a property element: the final marker, then the closing tag. */
  function PropertyTail(final: bool): string
  {
    "</value>" + (if final then "\n  <final>true" + FINAL_TAIL else "\n</property>\n")
  }

  /** The text `writeHadoopSiteKey` writes for one property. */
  function PropertyXml(p: SiteProperty): string
  {
    "<property>\n  <name>" + p.name + "</name>\n  <value>" + p.value + PropertyTail(p.final)
  }

  lemma EndsWithTail(a: string, b: string, t: string)
    requires |t| <= |b|
    ensures EndsWith(a + b, t) <==> EndsWith(b, t)
  {
    assert (a + b)[|a + b| - |t|..] == b[|b| - |t|..];
  }

  /** A property's text is marked final exactly when the property is. */
  lemma PropertyXmlMarksFinal(p: SiteProperty)
    ensures EndsWith(PropertyXml(p), FINAL_TAIL) <==> p.final
  {
    var tail := PropertyTail(p.final);
    assert PropertyXml(p) == "<property>\n  <name>" + p.name + "</name>\n  <value>" + p.value + tail;
    EndsWithTail("<property>\n  <name>" + p.name + "</name>\n  <value>" + p.value, tail, FINAL_TAIL);
    if p.final {
      EndsWithTail("</value>" + "\n  <final>true", FINAL_TAIL, FINAL_TAIL);
      assert FINAL_TAIL[|FINAL_TAIL| - |FINAL_TAIL|..] == FINAL_TAIL;
    } else {
      assert tail[2] != FINAL_TAIL[2];
    }
  }

  /** `writeHadoopSiteEpilogue` takes the handle and nothing else; any other number of arguments raises TypeError. */
  function CallWriteHadoopSiteEpilogue(argsGiven: nat, canUseLzo: bool): (r: Result<seq<SiteProperty>, PyError>)
    ensures r.Success? <==> argsGiven == 1
    ensures r.Success? ==> r.value == EpilogueProperties(canUseLzo)
  {
    if argsGiven != 1 then Failure(TypeError("writeHadoopSiteEpilogue() takes exactly 2 arguments"))
    else Success(EpilogueProperties(canUseLzo))
  }

  /**
   * The online branch of `installHadoopSiteFile` as written: after the user's
   * properties it calls `self.writeHadoopSiteEpilogue(self, handle)`, handing
   * the method two arguments besides the bound instance.
   */
  function OnlineSiteFileAsWritten(userProps: seq<SiteProperty>, canUseLzo: bool): Result<seq<SiteProperty>, PyError>
  {
    match CallWriteHadoopSiteEpilogue(2, canUseLzo)
    case Failure(e) => Failure(e)
    case Success(epilogue) => Success(userProps + epilogue)
  }

  /** So as written the online branch never completes the file: it always raises TypeError. */
  lemma OnlineSiteFileAlwaysRaises(userProps: seq<SiteProperty>, canUseLzo: bool)
    ensures OnlineSiteFileAsWritten(userProps, canUseLzo).Failure?
    ensures OnlineSiteFileAsWritten(userProps, canUseLzo).error.TypeError?
  {
  }

  /** Where the site file comes from: written from the dictionary, or copied from the user's file. */
  datatype SiteFile =
    | Generated(path: string, properties: seq<SiteProperty>)
    | Copied(from: string, path: string)

  class HadoopInstall {

    /** The tool's name and dependencies. */
    const tool: Tool
    var configuredHadoopSiteOnline: bool
    var javaHome: Option<string>
    /** The hadoop-site settings typed in by the user. */
    var hadoopSiteDict: map<string, SiteValue>
    /** Unset until `configMasterAddress` succeeds. */
    var masterHost: Option<string>

    constructor()
      ensures tool == Tool("Hadoop", ["GlobalPrereq"])
      ensures !configuredHadoopSiteOnline && javaHome == None && hadoopSiteDict == map[] && masterHost == None
    {
      tool := Tool("Hadoop", ["GlobalPrereq"]);
      configuredHadoopSiteOnline := false;
      javaHome := None;
      hadoopSiteDict := map[];
      masterHost := None;
    }

    /** `getHadoopSiteProperty`: the value typed in for a key; KeyError for a key not configured in the tool. */
    function GetHadoopSiteProperty(propName: string): (r: Result<SiteValue, PyError>)
      reads this
      ensures r.Success? <==> propName in hadoopSiteDict
      ensures r.Success? ==> r.value == hadoopSiteDict[propName]
      ensures r.Failure? ==> r.error == KeyError(propName)
    {
      if propName in hadoopSiteDict then Success(hadoopSiteDict[propName]) else Failure(KeyError(propName))
    }

    /**
     * The file `installDfsHostsFile` and `installDfsExcludesFile` write to:
     * none when the key was not configured in the tool (the KeyError is
     * swallowed) or names the empty string.
     */
    function DfsFileTarget(key: string): (path: Option<string>)
      reads this
      ensures path.Some? <==> GetHadoopSiteProperty(key).Success? && GetHadoopSiteProperty(key).value.Str?
                               && |GetHadoopSiteProperty(key).value.s| > 0
      ensures path.Some? ==> hadoopSiteDict[key] == Str(path.value)
    {
      match GetHadoopSiteProperty(key)
      case Failure(_) => None
      case Success(v) => if v.Str? && |v.s| > 0 then Some(v.s) else None
    }

    /**
     * `configMasterAddress`: unattended runs take the default host name and
     * fail without one; interactive runs take what the prompt ended with.
     * Either way the address must begin with a letter, and only then is it
     * stored.
     */
    method ConfigMasterAddress(masterProperty: Option<string>, hostnameLines: Option<seq<string>>, unattended: bool,
                               prompted: string)
      returns (err: Option<InstallError>)
      modifies this
      ensures hadoopSiteDict == old(hadoopSiteDict) && configuredHadoopSiteOnline == old(configuredHadoopSiteOnline)
      ensures javaHome == old(javaHome)
      ensures unattended && DefaultHostName(masterProperty, hostnameLines).None? ==>
        err == Some(MASTER_NOT_SET) && masterHost == old(masterHost)
      ensures unattended && DefaultHostName(masterProperty, hostnameLines).Some? ==>
        err == MasterAddressCheck(DefaultHostName(masterProperty, hostnameLines).value)
      ensures !unattended ==> err == MasterAddressCheck(prompted)
      ensures err.None? ==> masterHost.Some? && |masterHost.value| > 0 && IsAsciiLetter(masterHost.value[0])
      ensures err.None? ==> masterHost == (if unattended then DefaultHostName(masterProperty, hostnameLines) else Some(prompted))
      ensures err.Some? ==> masterHost == old(masterHost)
    {
      var defHostName := DefaultHostName(masterProperty, hostnameLines);
      var maybeMasterHost: string;
      if unattended {
        if defHostName.None? {
          return Some(MASTER_NOT_SET);
        }
        maybeMasterHost := defHostName.value;
      } else {
        maybeMasterHost := prompted;
      }
      err := MasterAddressCheck(maybeMasterHost);
      if err.Some? {
        return;
      }
      masterHost := Some(maybeMasterHost);
    }

    /**
     * `configHadoopSite`: an unattended run needs a site file, and a named
     * site file must exist.  Without one, an interactive run records that
     * the settings were given online and stores the answers.
     */
    method ConfigHadoopSite(siteFile: Option<string>, existing: set<string>, unattended: bool,
                            answers: map<string, SiteValue>)
      returns (err: Option<InstallError>)
      modifies this
      ensures masterHost == old(masterHost) && javaHome == old(javaHome)
      ensures unattended && siteFile.None? ==> err == Some(NO_SITE_FILE)
      ensures siteFile.Some? && siteFile.value !in existing ==> err == Some(SITE_FILE_MISSING)
      ensures err.None? <==> (siteFile.None? && !unattended) || (siteFile.Some? && siteFile.value in existing)
      ensures err.Some? || siteFile.Some? ==>
        hadoopSiteDict == old(hadoopSiteDict) && configuredHadoopSiteOnline == old(configuredHadoopSiteOnline)
      ensures err.None? && siteFile.None? ==>
        configuredHadoopSiteOnline && hadoopSiteDict == old(hadoopSiteDict) + answers
    {
      if unattended && siteFile.None? {
        return Some(NO_SITE_FILE);
      } else if siteFile.Some? && siteFile.value !in existing {
        return Some(SITE_FILE_MISSING);
      }
      if !unattended && siteFile.None? {
        configuredHadoopSiteOnline := true;
        hadoopSiteDict := hadoopSiteDict + answers;
      }
      return None;
    }

    /**
     * The properties of a generated hadoop-site.xml: one per dictionary key,
     * in the dictionary's (unspecified) iteration order, each marked final
     * exactly when its key is in `finals`, then the fixed epilogue.
     */
    method SiteProperties(finals: seq<string>, canUseLzo: bool) returns (props: seq<SiteProperty>)
      ensures |props| == |hadoopSiteDict| + |EpilogueProperties(canUseLzo)|
      ensures props[|hadoopSiteDict|..] == EpilogueProperties(canUseLzo)
      ensures forall i :: 0 <= i < |hadoopSiteDict| ==>
        props[i].name in hadoopSiteDict && props[i] == UserProperty(props[i].name, hadoopSiteDict[props[i].name], finals)
      ensures forall k :: k in hadoopSiteDict ==> exists i :: 0 <= i < |hadoopSiteDict| && props[i].name == k
    {
      var remaining := hadoopSiteDict.Keys;
      var user: seq<SiteProperty> := [];
      while remaining != {}
        invariant remaining <= hadoopSiteDict.Keys
        invariant |user| + |remaining| == |hadoopSiteDict|
        invariant forall i :: 0 <= i < |user| ==>
          user[i].name in hadoopSiteDict.Keys - remaining &&
          user[i] == UserProperty(user[i].name, hadoopSiteDict[user[i].name], finals)
        invariant forall k :: k in hadoopSiteDict.Keys - remaining ==> exists i :: 0 <= i < |user| && user[i].name == k
        decreases remaining
      {
        var key :| key in remaining;
        var before, remainingBefore := user, remaining;
        user := user + [UserProperty(key, hadoopSiteDict[key], finals)];
        remaining := remaining - {key};
        forall k | k in hadoopSiteDict.Keys - remaining
          ensures exists i :: 0 <= i < |user| && user[i].name == k
        {
          if k == key {
            assert user[|user| - 1].name == k;
          } else {
            assert k in hadoopSiteDict.Keys - remainingBefore;
            var i :| 0 <= i < |before| && before[i].name == k;
            assert user[i].name == k;
          }
        }
      }
      props := user + EpilogueProperties(canUseLzo);
      assert props[|user|..] == EpilogueProperties(canUseLzo);
      forall k | k in hadoopSiteDict
        ensures exists i :: 0 <= i < |hadoopSiteDict| && props[i].name == k
      {
        assert k in hadoopSiteDict.Keys - remaining;
        var i :| 0 <= i < |user| && user[i].name == k;
        assert props[i].name == k;
      }
    }

    /**
     * `installHadoopSiteFile`, with the epilogue called on the handle alone:
     * settings given online are written to `conf/hadoop-site.xml`, otherwise
     * the user's site file is copied there.  `writeFailure` is the IOError
     * of writing the generated file, if any; it is raised again as an
     * InstallError.
     */
    method InstallHadoopSiteFile(confDir: string, siteFile: Option<string>, finals: seq<string>, canUseLzo: bool,
                                 writeFailure: Option<string>)
      returns (r: Result<SiteFile, PyError>)
      ensures configuredHadoopSiteOnline && writeFailure.None? ==> r.Success? && r.value.Generated?
      ensures configuredHadoopSiteOnline && writeFailure.Some? ==>
        r == Failure(PyError.Install(InstallError(writeFailure.value)))
      ensures !configuredHadoopSiteOnline ==> (r.Success? <==> siteFile.Some?)
      ensures r.Success? ==> r.value.path == PathJoin(confDir, "hadoop-site.xml")
      ensures r.Success? && r.value.Copied? ==> !configuredHadoopSiteOnline && r.value.from == siteFile.value
      ensures r.Success? && r.value.Generated? ==>
        var ps := r.value.properties;
        |ps| == |hadoopSiteDict| + |EpilogueProperties(canUseLzo)| &&
        ps[|hadoopSiteDict|..] == EpilogueProperties(canUseLzo) &&
        (forall i :: 0 <= i < |hadoopSiteDict| ==>
           ps[i].name in hadoopSiteDict && ps[i] == UserProperty(ps[i].name, hadoopSiteDict[ps[i].name], finals)
           && (ps[i].final <==> ps[i].name in finals)) &&
        (forall k :: k in hadoopSiteDict ==> exists i :: 0 <= i < |hadoopSiteDict| && ps[i].name == k)
    {
      var destFileName := PathJoin(confDir, "hadoop-site.xml");
      if configuredHadoopSiteOnline {
        if writeFailure.Some? {
          return Failure(PyError.Install(InstallError(writeFailure.value)));
        }
        var props := SiteProperties(finals, canUseLzo);
        return Success(Generated(destFileName, props));
      }
      if siteFile.None? {
        return Failure(TypeError("coercing to Unicode: need string or buffer, NoneType found"));
      }
      return Success(Copied(siteFile.value, destFileName));
    }

    /**
     * `configure`: the master address, then the site settings; the second
     * step runs only when the first succeeded.
     */
    method Configure(masterProperty: Option<string>, hostnameLines: Option<seq<string>>, unattended: bool,
                     prompted: string, siteFile: Option<string>, existing: set<string>, answers: map<string, SiteValue>)
      returns (err: Option<InstallError>)
      modifies this
      ensures err.None? ==> masterHost.Some? && |masterHost.value| > 0 && IsAsciiLetter(masterHost.value[0])
      ensures err.None? ==> (siteFile.None? && !unattended) || (siteFile.Some? && siteFile.value in existing)
      ensures unattended && DefaultHostName(masterProperty, hostnameLines).None? ==> err == Some(MASTER_NOT_SET)
      ensures !unattended && MasterAddressCheck(prompted).Some? ==>
        err == Some(MASTER_FORMAT) && hadoopSiteDict == old(hadoopSiteDict)
      ensures javaHome == old(javaHome)
      ensures var m := if unattended then DefaultHostName(masterProperty, hostnameLines) else Some(prompted);
        var masterErr := if m.None? then Some(MASTER_NOT_SET) else MasterAddressCheck(m.value);
        masterErr.Some? ==>
          err == masterErr && masterHost == old(masterHost)
          && hadoopSiteDict == old(hadoopSiteDict) && configuredHadoopSiteOnline == old(configuredHadoopSiteOnline)
      ensures var m := if unattended then DefaultHostName(masterProperty, hostnameLines) else Some(prompted);
        var masterErr := if m.None? then Some(MASTER_NOT_SET) else MasterAddressCheck(m.value);
        masterErr.None? ==>
          masterHost == m
          && (unattended && siteFile.None? ==> err == Some(NO_SITE_FILE))
          && (siteFile.Some? && siteFile.value !in existing ==> err == Some(SITE_FILE_MISSING))
          && (err.None? <==> (siteFile.None? && !unattended) || (siteFile.Some? && siteFile.value in existing))
          && (err.Some? || siteFile.Some? ==>
                hadoopSiteDict == old(hadoopSiteDict) && configuredHadoopSiteOnline == old(configuredHadoopSiteOnline))
          && (err.None? && siteFile.None? ==>
                configuredHadoopSiteOnline && hadoopSiteDict == old(hadoopSiteDict) + answers)
    {
      err := ConfigMasterAddress(masterProperty, hostnameLines, unattended, prompted);
      if err.Some? {
        return;
      }
      err := ConfigHadoopSite(siteFile, existing, unattended, answers);
    }
  }
}
