/**
 * installer/src/com/cloudera/distribution/packages/hiveinstall.py: the Hive
 * component's configure stage.  It settles the HDFS NameNode address Hive
 * connects to (the --namenode property first, then Hadoop's
 * `fs.default.name`, then the user), checks it against
 * `hdfs://` + name:port + `/`, and rebuilds the hive-default.xml parameters.
 *
 * The Hadoop installer is seen through what Hive asks of it (`HadoopView`);
 * `None` stands for "Hadoop is not registered".  The interactive prompt loop
 * is not modelled: `prompted` is the address it ended with.
 */
module HiveInstall {

  import opened Common
  import opened PyStr
  import opened DnsRegex
  import opened ToolInstall

  /** What Hive reads from the Hadoop installer: `fs.default.name` (None for KeyError) and `canUseLzo()`. */
  datatype HadoopView = HadoopView(fsDefaultName: Option<string>, canUseLzo: bool)

  const NO_HADOOP := InstallError("Hive cannot be installed without Hadoop")
  const NO_NAMENODE := InstallError("Error: Installing Hive requires the name of an HDFS NameNode\n"
    + "Please re-run this tool with --namenode set")
  const BAD_NAMENODE := InstallError("Error: NameNode address must match the form hdfs://address:port/")

  const HDFS_SCHEME := "hdfs://"

  // ---------------------------------------------------------------------------
  // The NameNode address pattern
  // ---------------------------------------------------------------------------

  /** End of `re.match("hdfs\://" + dnsNameAndPortStr + "/", s)`, or None. */
  function NamenodeMatch(s: string): (m: Option<nat>)
    ensures m.Some? ==> m.value <= |s|
  {
    if !StartsWith(s, HDFS_SCHEME) then None
    else
      match DnsNameAndPortMatch(s[7..])
      case None => None
      case Some(e) => if 7 + e < |s| && s[7 + e] == '/' then Some(8 + e) else None
  }

  /** The match must cover the whole address. */
  predicate IsNamenodeAddress(s: string)
  {
    var m := NamenodeMatch(s);
    m.Some? && m.value == |s|
  }

  /** An address in the declared form: `hdfs://`, a name and port, then '/'. */
  predicate NamenodeAddressSpec(s: string)
  {
    |s| >= 8 && StartsWith(s, HDFS_SCHEME) && s[|s| - 1] == '/' && DnsNameAndPortSpec(s[7..|s| - 1])
  }

  /** An accepted address is exactly `hdfs://` + a DNS name + ':' + a decimal port + '/'. */
  lemma IsNamenodeAddressCorrect(s: string)
    ensures IsNamenodeAddress(s) <==> NamenodeAddressSpec(s)
  {
    if IsNamenodeAddress(s) {
      AcceptedIsSpec(s);
    }
    if NamenodeAddressSpec(s) {
      SpecIsAccepted(s);
    }
  }

  lemma AcceptedIsSpec(s: string)
    requires IsNamenodeAddress(s)
    ensures NamenodeAddressSpec(s)
  {
    var t := s[7..];
    var e := DnsNameAndPortMatch(t).value;
    assert 8 + e == |s| && s[7 + e] == '/';
    var x := s[7..|s| - 1];
    assert t == x + ['/'];
    SlashLeavesNameAndPort(x);
    assert IsDnsNameAndPort(x);
    IsDnsNameAndPortCorrect(x);
  }

  lemma SpecIsAccepted(s: string)
    requires NamenodeAddressSpec(s)
    ensures IsNamenodeAddress(s)
  {
    var t := s[7..];
    var x := s[7..|s| - 1];
    assert t == x + ['/'];
    IsDnsNameAndPortCorrect(x);
    SlashLeavesNameAndPort(x);
    assert DnsNameAndPortMatch(t).value == |x|;
    assert s[7 + |x|] == '/';
  }

  /**
   * The hive-default.xml parameters `configure` writes: fifteen fixed keys,
   * the metastore URI under the NameNode address and intermediate
   * compression following Hadoop's LZO support.
   */
  function HiveParams(hdfsServer: string, warehouseDir: string, lzoEnabled: bool): map<string, string>
  {
    HIVE_DEFAULTS["hive.metastore.uris" := hdfsServer + "/user/hive/warehouse"]
      ["hive.metastore.warehouse.dir" := warehouseDir]
      ["hive.exec.compress.intermediate" := BoolToString(lzoEnabled)]
  }

  /**
   * hive-default.xml holds exactly the fifteen keys, and the three that
   * depend on the configuration carry the address, the directory and the
   * LZO flag.
   */
  lemma HiveParamsContents(hdfsServer: string, warehouseDir: string, lzoEnabled: bool)
    ensures var p := HiveParams(hdfsServer, warehouseDir, lzoEnabled);
      p.Keys == HIVE_KEYS &&
      p["hive.metastore.uris"] == hdfsServer + "/user/hive/warehouse" &&
      p["hive.metastore.warehouse.dir"] == warehouseDir &&
      p["hive.exec.compress.intermediate"] == (if lzoEnabled then "True" else "False")
  {
  }

  /** The twelve hive-default.xml parameters that do not depend on the configuration. */
  const HIVE_DEFAULTS: map<string, string> := map[
      "hive.exec.scratchdir" := "/tmp/hive-${user.name}",
      "hive.metastore.local" := "false",
      "javax.jdo.option.ConnectionURL" := "jdbc:derby:;databaseName=metastore_db;create=true",
      "javax.jdo.option.ConnectionDriverName" := "org.apache.derby.jdbc.EmbeddedDriver",
      "hive.metastore.metadb.dir" := "file:///var/metastore/metadb/",
      "hive.metastore.connect.retries" := "5",
      "hive.metastore.rawstore.impl" := "org.apache.hadoop.hive.metastore.ObjectStore",
      "hive.default.fileformat" := "TextFile",
      "hive.map.aggr" := "false",
      "hive.join.emit.interval" := "1000",
      "hive.exec.script.maxerrsize" := "100000",
      "hive.exec.compress.output" := "false"
    ]

  /** The keys of hive-default.xml that HiveParams sets. */
  const HIVE_KEYS: set<string> := {
    "hive.exec.scratchdir", "hive.metastore.local", "javax.jdo.option.ConnectionURL",
    "javax.jdo.option.ConnectionDriverName", "hive.metastore.metadb.dir", "hive.metastore.connect.retries",
    "hive.metastore.rawstore.impl", "hive.default.fileformat", "hive.map.aggr", "hive.join.emit.interval",
    "hive.exec.script.maxerrsize", "hive.exec.compress.output", "hive.metastore.uris",
    "hive.metastore.warehouse.dir", "hive.exec.compress.intermediate"
  }

  /**
   * Where the NameNode address comes from: the --namenode property first,
   * then Hadoop's `fs.default.name`, then (interactive runs only) the prompt.
   */
  function ChosenAddress(namenodeProperty: Option<string>, fsDefaultName: Option<string>, unattended: bool,
                         prompted: string): (a: Option<string>)
    ensures a.None? <==> namenodeProperty.None? && fsDefaultName.None? && unattended
    ensures namenodeProperty.Some? ==> a == namenodeProperty
    ensures namenodeProperty.None? && fsDefaultName.Some? ==> a == fsDefaultName
  {
    if namenodeProperty.Some? then namenodeProperty
    else if fsDefaultName.Some? then fsDefaultName
    else if !unattended then Some(prompted)
    else None
  }

  /** The final check of `configureHdfsServer`: an address is required and must match the pattern. */
  function AddressCheck(a: Option<string>): (err: Option<InstallError>)
    ensures err.None? <==> a.Some? && IsNamenodeAddress(a.value)
    ensures a.None? ==> err == Some(NO_NAMENODE)
    ensures a.Some? && err.Some? ==> err == Some(BAD_NAMENODE)
  {
    if a.None? then Some(NO_NAMENODE)
    else if !IsNamenodeAddress(a.value) then Some(BAD_NAMENODE)
    else None
  }

  /** `getHadoopInstaller`: the registered Hadoop installer, or InstallError. */
  function GetHadoopInstaller(hadoop: Option<HadoopView>): (r: Result<HadoopView, InstallError>)
    ensures r.Success? <==> hadoop.Some?
    ensures r.Success? ==> r.value == hadoop.value
    ensures r.Failure? ==> r.error == NO_HADOOP
  {
    if hadoop.None? then Failure(NO_HADOOP) else Success(hadoop.value)
  }

  class HiveInstall {

    /** The tool's name and dependencies, fixed by `__init__`. */
    const tool: Tool
    /** Contents of hive-default.xml. */
    var hiveParams: map<string, string>
    /** The NameNode address, "hdfs://servername:port/". */
    var hdfsServer: Option<string>

    constructor()
      ensures tool == Tool("Hive", ["GlobalPrereq", "Hadoop"])
      ensures hiveParams == map[] && hdfsServer == None
    {
      tool := Tool("Hive", ["GlobalPrereq", "Hadoop"]);
      hiveParams := map[];
      hdfsServer := None;
    }

    /**
     * `configureHdfsServer`: the address is the --namenode property, else
     * Hadoop's `fs.default.name`, else (interactive runs only) the address
     * typed at the prompt; then it is checked against the pattern.  The
     * property is stored before the Hadoop lookup can fail.  The prompt is
     * repeated until the answer matches, so `prompted` is that last answer.
     */
    method ConfigureHdfsServer(namenodeProperty: Option<string>, hadoop: Option<HadoopView>, unattended: bool,
                               prompted: string)
      returns (err: Option<InstallError>)
      requires hadoop.Some? && namenodeProperty.None? && hadoop.value.fsDefaultName.None? && !unattended ==>
                 IsNamenodeAddress(prompted)
      modifies this
      ensures hadoop.Some? && namenodeProperty.None? && hadoop.value.fsDefaultName.None? && !unattended ==>
                err.None? && hdfsServer == Some(prompted)
      ensures hiveParams == old(hiveParams)
      ensures hadoop.None? ==> err == Some(NO_HADOOP) && hdfsServer == namenodeProperty
      ensures hadoop.Some? ==>
        hdfsServer == ChosenAddress(namenodeProperty, hadoop.value.fsDefaultName, unattended, prompted) &&
        err == AddressCheck(hdfsServer)
    {
      hdfsServer := namenodeProperty;
      var hadoopInstall := GetHadoopInstaller(hadoop);
      if hadoopInstall.Failure? {
        return Some(hadoopInstall.error);
      }
      if hdfsServer.None? {
        hdfsServer := hadoopInstall.value.fsDefaultName;
      }
      if hdfsServer.None? && !unattended {
        hdfsServer := Some(prompted);
      }
      if hdfsServer.None? {
        return Some(NO_NAMENODE);
      }
      if !IsNamenodeAddress(hdfsServer.value) {
        return Some(BAD_NAMENODE);
      }
      return None;
    }

    /**
     * `configure`: settles the address, then rebuilds `hiveParams` from
     * scratch.  A failure leaves the parameters as they were.
     */
    method Configure(namenodeProperty: Option<string>, hadoop: Option<HadoopView>, unattended: bool,
                     prompted: string, warehouseDir: string)
      returns (err: Option<InstallError>)
      requires hadoop.Some? && namenodeProperty.None? && hadoop.value.fsDefaultName.None? && !unattended ==>
                 IsNamenodeAddress(prompted)
      modifies this
      ensures hadoop.None? ==> hdfsServer == namenodeProperty
      ensures hadoop.Some? ==> hdfsServer == ChosenAddress(namenodeProperty, hadoop.value.fsDefaultName, unattended, prompted)
      ensures err == (if hadoop.None? then Some(NO_HADOOP) else AddressCheck(hdfsServer))
      ensures err.Some? ==> hiveParams == old(hiveParams)
      ensures err.None? ==> hadoop.Some? && hdfsServer.Some?
      ensures err.None? ==> hiveParams == HiveParams(hdfsServer.value, warehouseDir, hadoop.value.canUseLzo)
    {
      err := ConfigureHdfsServer(namenodeProperty, hadoop, unattended, prompted);
      if err.Some? {
        return;
      }
      var server := hdfsServer.value;
      var lzoEnabled := hadoop.value.canUseLzo;
      hiveParams := HiveParams(server, warehouseDir, lzoEnabled);
    }

    /** `getRedeployArgs`: the --namenode option that reproduces this configuration, if an address is set. */
    function GetRedeployArgs(): (args: seq<string>)
      reads this
      ensures args == [] <==> hdfsServer.None?
      ensures args != [] ==> |args| == 2 && args[0] == "--namenode" && args[1] == hdfsServer.value
    {
      if hdfsServer.Some? then ["--namenode", hdfsServer.value] else []
    }
  }
}
