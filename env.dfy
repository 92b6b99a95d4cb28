/**
 * installer/src/com/cloudera/distribution/env.py: the environment variables
 * the installed tools need, collected in one dictionary that refuses two
 * different values for the same variable, then printed and written out as a
 * shell script in sorted key order.
 *
 * The module-level dictionary `envMap` becomes the field of an `Environment`
 * object.  The GlobalPrereq tool lookup, the file write and the `ln -s` call
 * are inputs: `globalPrereq` is the tool's directories when it is registered,
 * `writeSucceeds` and `linkSucceeds` say whether the write and the shell
 * command worked.
 */
module Env {

  import opened Common
  import opened PyStr

  datatype InstallError =
    | ConflictingValues(key: string, val1: string, val2: string)   // "requires multiple values"
    | NoGlobalPrereq                                               // "No global prereq installer found?"
    | CouldNotWrite(path: string)                                  // the IOError of the script write
    | CouldNotSymlink(target: string)                              // the CommandError of `ln -s`

  /** The directories of the GlobalPrereq tool that the script is written to and linked from. */
  datatype PrereqDirs = PrereqDirs(installPrefix: string, configDir: string)

  /** What was written to disk: the script's path and content. */
  datatype ScriptFile = ScriptFile(path: string, content: string)

  const BANNER := "To use the tools in the Cloudera Hadoop distribution, you will need to\n"
    + "set the following environment variables. You should be able to paste this\n"
    + "directly into your .bashrc or /etc/profile files:"

  const SHEBANG := "#!/bin/bash\n"

  const SCRIPT_NAME := "user_env"

  function ExportLine(key: string, val: string): string
  {
    "export " + key + "=" + val
  }

  /** One export line per key, in the order of `keys`. */
  function ExportLines(keys: seq<string>, m: map<string, string>): (lines: seq<string>)
    requires forall k :: k in keys ==> k in m
    ensures |lines| == |keys|
    ensures forall i :: 0 <= i < |keys| ==> lines[i] == ExportLine(keys[i], m[keys[i]])
  {
    if keys == [] then []
    else ExportLines(keys[..|keys| - 1], m) + [ExportLine(keys[|keys| - 1], m[keys[|keys| - 1]])]
  }

  /** The export lines, each ending in a newline, concatenated. */
  function ExportText(keys: seq<string>, m: map<string, string>): string
    requires forall k :: k in keys ==> k in m
  {
    if keys == [] then []
    else ExportText(keys[..|keys| - 1], m) + ExportLine(keys[|keys| - 1], m[keys[|keys| - 1]]) + "\n"
  }

  /** The keys of `m` in the order `keys.sort()` leaves them. */
  ghost predicate IsSortedKeys(keys: seq<string>, m: map<string, string>)
  {
    StrictlySorted(keys) && forall k :: k in keys <==> k in m
  }

  /** The sorted key list is unique, so every printed listing of a map is the same. */
  lemma SortedKeysUnique(a: seq<string>, b: seq<string>, m: map<string, string>)
    requires IsSortedKeys(a, m) && IsSortedKeys(b, m)
    ensures a == b
  {
    SortedUnique(a, b);
  }

  /** An export line gives back its key and value when split at the first '=', provided the key holds none. */
  lemma ExportLineParses(key: string, val: string)
    requires '=' !in key
    ensures var line := ExportLine(key, val);
      StartsWith(line, "export ") && SplitOnce(line[7..], '=') == Some((key, val))
  {
    var line := ExportLine(key, val);
    assert line[..7] == "export ";
    assert line[7..] == key + ['='] + val;
    SplitOnceAt(key, '=', val);
  }

  class Environment {

    /** Variable name to value. */
    var envMap: map<string, string>

    constructor()
      ensures envMap == map[]
    {
      envMap := map[];
    }

    /**
     * `addToEnvironment(key, val)`: binds an unbound key; a key already bound
     * to the same value is left alone; a key bound to another value raises
     * and keeps its binding.
     */
    method AddToEnvironment(key: string, val: string) returns (err: Option<InstallError>)
      modifies this
      ensures key in old(envMap) && old(envMap)[key] != val ==>
        err == Some(ConflictingValues(key, old(envMap)[key], val)) && envMap == old(envMap)
      ensures key in old(envMap) && old(envMap)[key] == val ==> err == None && envMap == old(envMap)
      ensures key !in old(envMap) ==> err == None && envMap == old(envMap)[key := val]
      ensures forall k :: k in old(envMap) ==> k in envMap && envMap[k] == old(envMap)[k]
    {
      if key in envMap {
        var curVal := envMap[key];
        if curVal != val {
          return Some(ConflictingValues(key, curVal, val));
        }
        return None;
      }
      envMap := envMap[key := val];
      return None;
    }

    /**
     * `printEnvironment`: the lines printed; nothing for an empty map,
     * otherwise the banner and one export line per variable in sorted key order.
     */
    method PrintEnvironment() returns (lines: seq<string>)
      ensures |envMap| == 0 ==> lines == []
      ensures |envMap| > 0 ==> |lines| == |envMap| + 1 && lines[0] == BANNER
      ensures |envMap| > 0 ==> exists keys :: IsSortedKeys(keys, envMap) && lines[1..] == ExportLines(keys, envMap)
    {
      if |envMap| == 0 {
        return [];
      }
      var keys := SortedKeys(envMap);
      lines := [BANNER];
      var i := 0;
      while i < |keys|
        invariant 0 <= i <= |keys|
        invariant lines == [BANNER] + ExportLines(keys[..i], envMap)
      {
        assert keys[..i + 1][..i] == keys[..i];
        lines := lines + [ExportLine(keys[i], envMap[keys[i]])];
        i := i + 1;
      }
      assert keys[..i] == keys;
      assert IsSortedKeys(keys, envMap);
    }

    /** The text `writeEnvironmentScript` writes: the shebang line, then one export line per variable in sorted key order. */
    method ScriptContent() returns (content: string)
      ensures exists keys :: IsSortedKeys(keys, envMap) && content == SHEBANG + ExportText(keys, envMap)
    {
      var keys := SortedKeys(envMap);
      content := SHEBANG;
      var i := 0;
      while i < |keys|
        invariant 0 <= i <= |keys|
        invariant content == SHEBANG + ExportText(keys[..i], envMap)
      {
        assert keys[..i + 1][..i] == keys[..i];
        content := content + ExportLine(keys[i], envMap[keys[i]]) + "\n";
        i := i + 1;
      }
      assert keys[..i] == keys;
      assert IsSortedKeys(keys, envMap);
    }

    /**
     * `writeEnvironmentScript`: nothing for an empty map; otherwise raises
     * when GlobalPrereq is not registered, and writes `user_env` under its
     * install prefix: the shebang line, then one export line per variable in
     * sorted key order.  A failed write or a failed symlink raises; the
     * symlink is attempted only after the file was written.  Both the script
     * and the configuration directory are made absolute against the working
     * directory `cwd`.
     */
    method WriteEnvironmentScript(globalPrereq: Option<PrereqDirs>, cwd: string, writeSucceeds: bool, linkSucceeds: bool)
      returns (written: Option<ScriptFile>, err: Option<InstallError>)
      ensures |envMap| == 0 ==> written == None && err == None
      ensures |envMap| > 0 && globalPrereq.None? ==> written == None && err == Some(NoGlobalPrereq)
      ensures |envMap| > 0 && globalPrereq.Some? ==>
        var path := AbsPath(cwd, PathJoin(globalPrereq.value.installPrefix, SCRIPT_NAME));
        && (written.Some? <==> writeSucceeds)
        && (!writeSucceeds ==> err == Some(CouldNotWrite(path)))
        && (writeSucceeds && !linkSucceeds ==>
              err == Some(CouldNotSymlink(PathJoin(AbsPath(cwd, globalPrereq.value.configDir), SCRIPT_NAME))))
        && (writeSucceeds && linkSucceeds ==> err == None)
        && (writeSucceeds ==> written.value.path == path)
        && (writeSucceeds ==>
              exists keys :: IsSortedKeys(keys, envMap) && written.value.content == SHEBANG + ExportText(keys, envMap))
    {
      if |envMap| == 0 {
        return None, None;
      }
      if globalPrereq.None? {
        return None, Some(NoGlobalPrereq);
      }
      var envFilename := AbsPath(cwd, PathJoin(globalPrereq.value.installPrefix, SCRIPT_NAME));
      if !writeSucceeds {
        return None, Some(CouldNotWrite(envFilename));
      }
      var content := ScriptContent();
      written := Some(ScriptFile(envFilename, content));
      var configTarget := PathJoin(AbsPath(cwd, globalPrereq.value.configDir), SCRIPT_NAME);
      if !linkSucceeds {
        return written, Some(CouldNotSymlink(configTarget));
      }
      return written, None;
    }
  }
}
