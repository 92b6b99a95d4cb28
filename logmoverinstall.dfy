/**
 * installer/src/com/cloudera/distribution/packages/logmoverinstall.py: the
 * LogMover component, installed on the master node only.  What is modelled
 * is the decision logic around the shell calls: which cron jobs are added to
 * the Hadoop user's crontab, which MySQL commands bootstrap the database and
 * when a temporary `.my.cnf` holding the superuser password exists, which
 * steps run on which node, and the version check on restored state.
 *
 * The shell is an input: `existingCron` is what `crontab -l` printed (None
 * when it failed), the `...Ok` flags say whether a command succeeded,
 * `cnfExists` whether a `.my.cnf` was already there and `backupName` where
 * `backupFile` moved it.  Paths and constants the code imports are
 * parameters.
 */
module LogMoverInstall {

  import opened Common
  import opened PyStr
  import opened ToolInstall

  const PRUNE_SCRIPT := "prune.py"
  const LOG_TO_DB_SCRIPT := "log_to_db.py"

  const CRON_FAILED := InstallError("Unable to install the log mover cron job")
  const MYSQL_FAILED := InstallError("Could not bootstrap MySQL with log mover schema and user")
  const CHMOD_FAILED := InstallError("Could not change the permissions on the .my.cnf file")
  const CLEANUP_FAILED := InstallError("Unable to clean up .my.cnf")

  // ---------------------------------------------------------------------------
  // The crontab
  // ---------------------------------------------------------------------------

  /** The crontab line that runs `script` from the LogMover directory every minute. */
  function CronJob(symlinkPath: string, script: string): string
  {
    "* * * * * python " + PathJoin(symlinkPath, script) + "\n"
  }

  predicate MentionsPrune(line: string)
  {
    Find(line, PRUNE_SCRIPT) >= 0
  }

  predicate MentionsLogToDb(line: string)
  {
    Find(line, LOG_TO_DB_SCRIPT) >= 0
  }

  /** `need_prune` after the scan: no line mentions prune.py. */
  predicate NeedPrune(cron: seq<string>)
  {
    forall i :: 0 <= i < |cron| ==> !MentionsPrune(cron[i])
  }

  /**
   * `need_log_to_db` after the scan: no line mentions log_to_db.py without
   * also mentioning prune.py, since a line that mentions prune.py never
   * reaches the `elif`.
   */
  predicate NeedLogToDb(cron: seq<string>)
  {
    forall i :: 0 <= i < |cron| ==> MentionsPrune(cron[i]) || !MentionsLogToDb(cron[i])
  }

  /** `cron` followed by `pruneJob` when `addPrune` and then by `logJob` when `addLog`. */
  function Appended(cron: seq<string>, addPrune: bool, pruneJob: string, addLog: bool, logJob: string): (r: seq<string>)
    ensures |cron| <= |r| <= |cron| + 2 && r[..|cron|] == cron
    ensures |r| == |cron| <==> !addPrune && !addLog
    ensures pruneJob != logJob ==> (pruneJob in r[|cron|..] <==> addPrune)
    ensures addLog ==> r[|r| - 1] == logJob
    ensures forall i :: |cron| <= i < |r| ==> r[i] == pruneJob || r[i] == logJob
  {
    var prune := if addPrune then [pruneJob] else [];
    var logToDb := if addLog then [logJob] else [];
    assert (cron + prune + logToDb)[|cron|..] == prune + logToDb;
    cron + prune + logToDb
  }

  /** The crontab `installCronjob` leaves: the existing lines, then the missing jobs, prune first. */
  function NewCrontab(cron: seq<string>, symlinkPath: string): (r: seq<string>)
    ensures |cron| <= |r| <= |cron| + 2 && r[..|cron|] == cron
    ensures CronJob(symlinkPath, PRUNE_SCRIPT) in r[|cron|..] <==> NeedPrune(cron)
    ensures NeedLogToDb(cron) ==> r[|r| - 1] == CronJob(symlinkPath, LOG_TO_DB_SCRIPT)
    ensures |r| == |cron| <==> !NeedPrune(cron) && !NeedLogToDb(cron)
  {
    JobsDiffer(symlinkPath);
    Appended(cron, NeedPrune(cron), CronJob(symlinkPath, PRUNE_SCRIPT),
             NeedLogToDb(cron), CronJob(symlinkPath, LOG_TO_DB_SCRIPT))
  }

  /** Two strings ending in suffixes that differ at the same distance from the end differ. */
  lemma SuffixesDiffer(x: string, y: string, s: string, t: string, k: nat)
    requires EndsWith(x, s) && EndsWith(y, t)
    requires k < |s| && k < |t| && s[|s| - 1 - k] != t[|t| - 1 - k]
    ensures x != y
  {
    assert x[|x| - 1 - k] == s[|s| - 1 - k];
    assert y[|y| - 1 - k] == t[|t| - 1 - k];
  }

  /** The same frame around two different strings gives two different strings. */
  lemma FramedDiffer(h: string, p: string, q: string, t: string)
    requires p != q
    ensures h + p + t != h + q + t
  {
    if |p| == |q| {
      assert (h + p + t)[|h|..|h| + |p|] == p;
      assert (h + q + t)[|h|..|h| + |q|] == q;
    }
  }

  /** Cron lines for two scripts whose names end differently differ. */
  lemma CronJobsDiffer(symlinkPath: string, s: string, t: string, k: nat)
    requires k < |s| && k < |t| && s[|s| - 1 - k] != t[|t| - 1 - k]
    ensures CronJob(symlinkPath, s) != CronJob(symlinkPath, t)
  {
    var p, q := PathJoin(symlinkPath, s), PathJoin(symlinkPath, t);
    SuffixesDiffer(p, q, s, t, k);
    FramedDiffer("* * * * * python ", p, q, "\n");
  }

  /** The two cron lines differ: the script names end differently. */
  lemma JobsDiffer(symlinkPath: string)
    ensures CronJob(symlinkPath, PRUNE_SCRIPT) != CronJob(symlinkPath, LOG_TO_DB_SCRIPT)
  {
    CronJobsDiffer(symlinkPath, PRUNE_SCRIPT, LOG_TO_DB_SCRIPT, 3);
  }

  /** A piece of a concatenation is found in it. */
  lemma FindsMiddle(a: string, b: string, c: string)
    ensures Find(a + b + c, b) >= 0
  {
    assert (a + b + c)[|a|..|a| + |b|] == b;
    assert OccursAt(a + b + c, b, |a|);
  }

  lemma PruneJobMentionsPrune(symlinkPath: string)
    ensures MentionsPrune(CronJob(symlinkPath, PRUNE_SCRIPT))
  {
    var p := PathJoin(symlinkPath, PRUNE_SCRIPT);
    assert p[|p| - |PRUNE_SCRIPT|..] == PRUNE_SCRIPT;
    assert p == p[..|p| - |PRUNE_SCRIPT|] + PRUNE_SCRIPT;
    assert CronJob(symlinkPath, PRUNE_SCRIPT) == "* * * * * python " + p[..|p| - |PRUNE_SCRIPT|] + PRUNE_SCRIPT + "\n";
    FindsMiddle("* * * * * python " + p[..|p| - |PRUNE_SCRIPT|], PRUNE_SCRIPT, "\n");
  }

  lemma LogToDbJobMentionsLogToDb(symlinkPath: string)
    ensures MentionsLogToDb(CronJob(symlinkPath, LOG_TO_DB_SCRIPT))
  {
    var p := PathJoin(symlinkPath, LOG_TO_DB_SCRIPT);
    assert p[|p| - |LOG_TO_DB_SCRIPT|..] == LOG_TO_DB_SCRIPT;
    assert p == p[..|p| - |LOG_TO_DB_SCRIPT|] + LOG_TO_DB_SCRIPT;
    assert CronJob(symlinkPath, LOG_TO_DB_SCRIPT) ==
      "* * * * * python " + p[..|p| - |LOG_TO_DB_SCRIPT|] + LOG_TO_DB_SCRIPT + "\n";
    FindsMiddle("* * * * * python " + p[..|p| - |LOG_TO_DB_SCRIPT|], LOG_TO_DB_SCRIPT, "\n");
  }

  /**
   * The two jobs are told apart only when the log_to_db.py line does not
   * itself mention prune.py, which the LogMover directory's name could make
   * it do.
   */
  predicate JobsDistinguishable(symlinkPath: string)
  {
    !MentionsPrune(CronJob(symlinkPath, LOG_TO_DB_SCRIPT))
  }

  /** Afterwards the crontab holds both jobs, as the scan sees them. */
  lemma NewCrontabHasBothJobs(cron: seq<string>, symlinkPath: string)
    requires JobsDistinguishable(symlinkPath)
    ensures !NeedPrune(NewCrontab(cron, symlinkPath))
    ensures !NeedLogToDb(NewCrontab(cron, symlinkPath))
  {
    var r := NewCrontab(cron, symlinkPath);
    if NeedPrune(cron) {
      PruneJobMentionsPrune(symlinkPath);
      var k :| |cron| <= k < |r| && r[k] == CronJob(symlinkPath, PRUNE_SCRIPT);
      assert MentionsPrune(r[k]);
    } else {
      var k :| 0 <= k < |cron| && MentionsPrune(cron[k]);
      assert r[k] == cron[k];
    }
    if NeedLogToDb(cron) {
      LogToDbJobMentionsLogToDb(symlinkPath);
      assert !(MentionsPrune(r[|r| - 1]) || !MentionsLogToDb(r[|r| - 1]));
    } else {
      var k :| 0 <= k < |cron| && !(MentionsPrune(cron[k]) || !MentionsLogToDb(cron[k]));
      assert r[k] == cron[k];
    }
  }

  /** Running the installer again on its own crontab appends nothing. */
  lemma NewCrontabIdempotent(cron: seq<string>, symlinkPath: string)
    requires JobsDistinguishable(symlinkPath)
    ensures NewCrontab(NewCrontab(cron, symlinkPath), symlinkPath) == NewCrontab(cron, symlinkPath)
  {
    var r := NewCrontab(cron, symlinkPath);
    NewCrontabHasBothJobs(cron, symlinkPath);
    assert |NewCrontab(r, symlinkPath)| == |r|;
  }

  /**
   * When the log_to_db.py line does mention prune.py, every run that finds
   * no separate log_to_db.py line appends the job once more.
   */
  lemma IndistinguishableJobsGrow(cron: seq<string>, symlinkPath: string)
    requires !JobsDistinguishable(symlinkPath) && NeedLogToDb(cron)
    ensures |NewCrontab(NewCrontab(cron, symlinkPath), symlinkPath)| > |NewCrontab(cron, symlinkPath)|
  {
    var r := NewCrontab(cron, symlinkPath);
    PruneJobMentionsPrune(symlinkPath);
    forall i | 0 <= i < |r|
      ensures MentionsPrune(r[i]) || !MentionsLogToDb(r[i])
    {
      if i < |cron| {
        assert r[i] == cron[i];
      } else {
        assert r[i] == CronJob(symlinkPath, PRUNE_SCRIPT) || r[i] == CronJob(symlinkPath, LOG_TO_DB_SCRIPT);
      }
    }
    assert NeedLogToDb(r);
  }

  /** A line naming both scripts counts only for prune.py: the log_to_db.py job is still appended. */
  lemma BothScriptsOnOneLine(line: string, symlinkPath: string)
    requires MentionsPrune(line) && MentionsLogToDb(line)
    ensures NewCrontab([line], symlinkPath) == [line, CronJob(symlinkPath, LOG_TO_DB_SCRIPT)]
  {
    assert [line][0] == line;
    assert !NeedPrune([line]);
    assert NeedLogToDb([line]);
  }

  /** One more line of the scan. */
  lemma ScanStep(cron: seq<string>, line: string)
    ensures NeedPrune(cron + [line]) <==> NeedPrune(cron) && !MentionsPrune(line)
    ensures NeedLogToDb(cron + [line]) <==> NeedLogToDb(cron) && (MentionsPrune(line) || !MentionsLogToDb(line))
  {
    var c := cron + [line];
    assert c[|cron|] == line;
    assert forall i :: 0 <= i < |cron| ==> c[i] == cron[i];
  }

  /**
   * `installCronjob`: scans the existing crontab (empty when it cannot be
   * read), appends the jobs it lacks and reinstalls the crontab only when it
   * appended something; the reinstall can fail.
   */
  method InstallCronjob(existingCron: Option<seq<string>>, symlinkPath: string, crontabSucceeds: bool)
    returns (lines: seq<string>, reinstalled: bool, err: Option<InstallError>)
    ensures var cron := if existingCron.Some? then existingCron.value else [];
      lines == NewCrontab(cron, symlinkPath) && (reinstalled <==> |lines| > |cron|)
    ensures err == (if reinstalled && !crontabSucceeds then Some(CRON_FAILED) else None)
  {
    var cron := if existingCron.Some? then existingCron.value else [];
    var needPrune := true;
    var needLogToDb := true;
    var i := 0;
    while i < |cron|
      invariant 0 <= i <= |cron|
      invariant needPrune == NeedPrune(cron[..i])
      invariant needLogToDb == NeedLogToDb(cron[..i])
    {
      assert cron[..i + 1] == cron[..i] + [cron[i]];
      ScanStep(cron[..i], cron[i]);
      if Find(cron[i], PRUNE_SCRIPT) >= 0 {
        needPrune := false;
      } else if Find(cron[i], LOG_TO_DB_SCRIPT) >= 0 {
        needLogToDb := false;
      }
      i := i + 1;
    }
    assert cron[..i] == cron;
    var prune := if needPrune then [CronJob(symlinkPath, PRUNE_SCRIPT)] else [];
    var logToDb := if needLogToDb then [CronJob(symlinkPath, LOG_TO_DB_SCRIPT)] else [];
    lines := cron + prune + logToDb;
    reinstalled := needPrune || needLogToDb;
    err := if reinstalled && !crontabSucceeds then Some(CRON_FAILED) else None;
  }

  // ---------------------------------------------------------------------------
  // MySQL bootstrap
  // ---------------------------------------------------------------------------

  /** `use_passwd`: whether mysql is asked to prompt for a password. */
  function UsePasswd(unattended: bool, passwd: string): (use: bool)
    ensures use <==> !unattended || passwd != ""
  {
    !unattended || (unattended && passwd != "")
  }

  /** The start of both mysql commands: the superuser, and `-p` when a password is used. */
  function MysqlBase(dbUser: string, usePasswd: bool): string
  {
    "mysql -u " + dbUser + " " + (if usePasswd then "-p " else "")
  }

  /** The cleanup command of `destroyMyCnf`: put the backup back if there was one, else delete the file. */
  function DestroyCommand(backup: Option<string>, myCnfFile: string): (cmd: string)
    ensures backup.Some? ==> cmd == "mv " + backup.value + " " + myCnfFile
    ensures backup.None? ==> cmd == "rm " + myCnfFile
  {
    if backup.Some? then "mv " + backup.value + " " + myCnfFile else "rm " + myCnfFile
  }

  /** A Python attribute that may never have been assigned. */
  datatype Attr<T> = Unset | Assigned(v: T)

  datatype PyError = AttributeError(name: string)

  /**
   * `destroyMyCnf` as written: `myCnfBackup` is assigned only by
   * `createMyCnf`, and only when a `.my.cnf` already existed.
   */
  function DestroyCommandAsWritten(backup: Attr<Option<string>>, myCnfFile: string): Result<string, PyError>
  {
    match backup
    case Unset => Failure(AttributeError("myCnfBackup"))
    case Assigned(b) => Success(DestroyCommand(b, myCnfFile))
  }

  /** `createMyCnf` as written: the attribute is assigned only when the file existed. */
  function CreateMyCnfAsWritten(backup: Attr<Option<string>>, cnfExists: bool, backupName: string): Attr<Option<string>>
  {
    if cnfExists then Assigned(Some(backupName)) else backup
  }

  /**
   * So on a fresh installer, an unattended run with a password and no
   * earlier `.my.cnf` creates the file and then fails to remove it.
   */
  lemma FreshCleanupRaises(backupName: string, myCnfFile: string)
    ensures DestroyCommandAsWritten(CreateMyCnfAsWritten(Unset, false, backupName), myCnfFile).Failure?
  {
  }

  class LogMoverInstall {

    const tool: Tool
    /** The roles handed to `restore_state`. */
    var roleList: Option<seq<string>>
    /** Where `createMyCnf` moved an existing `.my.cnf`; None when there was none. */
    var myCnfBackup: Option<string>

    /** The installer, with no `.my.cnf` backup recorded. */
    constructor()
      ensures tool == Tool("LogMover", []) && roleList == None && myCnfBackup == None
    {
      tool := Tool("LogMover", []);
      roleList := None;
      myCnfBackup := None;
    }

    /**
     * `createMyCnf`: records the backup of an existing `.my.cnf`, then
     * writes the file and fails when `chmod 600` on it fails.
     */
    method CreateMyCnf(cnfExists: bool, backupName: string, chmodOk: bool) returns (err: Option<InstallError>)
      modifies this
      ensures myCnfBackup == (if cnfExists then Some(backupName) else old(myCnfBackup))
      ensures roleList == old(roleList)
      ensures err.None? <==> chmodOk
      ensures err.Some? ==> err.value == CHMOD_FAILED
    {
      if cnfExists {
        myCnfBackup := Some(backupName);
      }
      err := if chmodOk then None else Some(CHMOD_FAILED);
    }

    /**
     * `bootstrapMysql`: runs the user script and then the schema script,
     * with `-p` unless the run is unattended with an empty password.  An
     * unattended run with a password writes a temporary `.my.cnf` first (a
     * failed `chmod` on it stops the bootstrap) and removes it, or restores
     * the backup, only when both scripts succeeded; a failed cleanup raises.
     */
    method BootstrapMysql(prefix: string, dbUser: string, dbName: string, unattended: bool, passwd: string,
                          myCnfFile: string, cnfExists: bool, backupName: string, chmodOk: bool,
                          userScriptOk: bool, initScriptOk: bool, cleanupOk: bool)
      returns (commands: seq<string>, myCnfCreated: bool, cleanup: Option<string>, err: Option<InstallError>)
      modifies this
      ensures myCnfCreated <==> unattended && passwd != ""
      ensures var chmodFailed := myCnfCreated && !chmodOk;
        var scriptsOk := userScriptOk && initScriptOk;
        err == if chmodFailed then Some(CHMOD_FAILED)
               else if !scriptsOk then Some(MYSQL_FAILED)
               else if myCnfCreated && !cleanupOk then Some(CLEANUP_FAILED)
               else None
      ensures err.None? <==> (myCnfCreated ==> chmodOk && cleanupOk) && userScriptOk && initScriptOk
      ensures var base := MysqlBase(dbUser, UsePasswd(unattended, passwd));
        var userCmd := base + "< " + PathJoin(prefix, "db_user_and_db.sql");
        var initCmd := base + dbName + " < " + PathJoin(prefix, "db_init.sql");
        commands == if myCnfCreated && !chmodOk then []
                    else if userScriptOk then [userCmd, initCmd] else [userCmd]
      ensures cleanup.Some? <==> myCnfCreated && chmodOk && userScriptOk && initScriptOk
      ensures myCnfBackup == (if myCnfCreated && cnfExists then Some(backupName) else old(myCnfBackup))
      ensures cleanup.Some? ==> cleanup.value == DestroyCommand(myCnfBackup, myCnfFile)
      ensures roleList == old(roleList)
    {
      var usePasswd := UsePasswd(unattended, passwd);
      myCnfCreated := unattended && passwd != "";
      commands, cleanup := [], None;
      if myCnfCreated {
        err := CreateMyCnf(cnfExists, backupName, chmodOk);
        if err.Some? {
          return;
        }
      }
      var base := MysqlBase(dbUser, usePasswd);
      commands := [base + "< " + PathJoin(prefix, "db_user_and_db.sql")];
      if !userScriptOk {
        return commands, myCnfCreated, None, Some(MYSQL_FAILED);
      }
      commands := commands + [base + dbName + " < " + PathJoin(prefix, "db_init.sql")];
      if !initScriptOk {
        return commands, myCnfCreated, None, Some(MYSQL_FAILED);
      }
      err := None;
      if myCnfCreated {
        cleanup := Some(DestroyCommand(myCnfBackup, myCnfFile));
        if !cleanupOk {
          err := Some(CLEANUP_FAILED);
        }
      }
    }

    /** `restore_state`: records the roles, then accepts only state written by version 0.2.0. */
    method RestoreState(roles: seq<string>, version: string) returns (err: Option<InstallError>)
      modifies this
      ensures roleList == Some(roles) && myCnfBackup == old(myCnfBackup)
      ensures err.None? <==> version == "0.2.0"
      ensures err.Some? ==> err == Some(InstallError("Cannot read state from file for version " + version))
    {
      roleList := Some(roles);
      if version == "0.2.0" {
        return None;
      }
      return Some(InstallError("Cannot read state from file for version " + version));
    }
  }

  /** A bootstrap on a fresh installer that creates a `.my.cnf` cleans up by restoring the backup, or by deleting the file when there was none. */
  method FreshBootstrapRestores(prefix: string, dbUser: string, dbName: string, passwd: string, myCnfFile: string,
                                cnfExists: bool, backupName: string)
    returns (cleanup: Option<string>)
    requires passwd != ""
    ensures cleanup == Some(if cnfExists then "mv " + backupName + " " + myCnfFile else "rm " + myCnfFile)
  {
    var installer := new LogMoverInstall();
    var commands, created, err;
    commands, created, cleanup, err :=
      installer.BootstrapMysql(prefix, dbUser, dbName, true, passwd, myCnfFile, cnfExists, backupName, true, true, true, true);
  }

  // ---------------------------------------------------------------------------
  // Which steps run where
  // ---------------------------------------------------------------------------

  datatype Step =
    | InstallMysqlStep | InstallLogMoverStep | InstallConfigsStep | BootstrapMysqlStep | InstallCronjobStep
    | CreateInstallSymlink | CreateEtcSymlink | StopDaemon(service: string)

  /** The steps `install` runs: all five on the master, nothing elsewhere. */
  function InstallSteps(isMaster: bool): (steps: seq<Step>)
    ensures steps == [] <==> !isMaster
    ensures isMaster ==> |steps| == 5 && steps[3] == BootstrapMysqlStep && steps[4] == InstallCronjobStep
  {
    if isMaster then [InstallMysqlStep, InstallLogMoverStep, InstallConfigsStep, BootstrapMysqlStep, InstallCronjobStep]
    else []
  }

  /**
   * The steps `postInstall` runs: nothing off the master; on the master the
   * two symlinks, then MySQL and lighttpd are stopped when daemons may not
   * be started.
   */
  function PostInstallSteps(isMaster: bool, mayStartDaemons: bool): (steps: seq<Step>)
    ensures steps == [] <==> !isMaster
    ensures isMaster ==> |steps| >= 2 && steps[..2] == [CreateInstallSymlink, CreateEtcSymlink]
    ensures isMaster ==> (|steps| == 4 <==> !mayStartDaemons) && (|steps| == 2 <==> mayStartDaemons)
    ensures forall i :: 0 <= i < |steps| && steps[i].StopDaemon? ==> !mayStartDaemons
  {
    if !isMaster then []
    else if mayStartDaemons then [CreateInstallSymlink, CreateEtcSymlink]
    else [CreateInstallSymlink, CreateEtcSymlink, StopDaemon("mysql"), StopDaemon("lighttpd")]
  }
}
