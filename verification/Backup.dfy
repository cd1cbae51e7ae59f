/** Backing up and restoring a file of the remote host: `FileBackup` copies it to a file with a
    suffixed name, `FileRestore` copies that one back and deletes it. */
module Backup {
  import opened Common

  type Bytes = seq<bv8>

  type Files = map<string, Bytes>

  const BACKUP_SUFFIX: string := "_origin"

  /** `JoinPath`; of an empty path it reads before the first character. */
  function JoinPath(path: string, part: string): string
    requires path != ""
  {
    (if path[|path| - 1] != '/' then path + "/" else path) + part
  }

  function BackupPath(path: string, name: string): string
    requires path != ""
  {
    JoinPath(path, name) + BACKUP_SUFFIX
  }

  /** What a stream on the file delivers; a file that cannot be opened delivers nothing. */
  function Content(files: Files, file: string): Bytes {
    if file in files then files[file] else []
  }

  /** Copying one stream into a truncated other one. */
  function Copied(files: Files, from: string, to: string): Files {
    files[to := Content(files, from)]
  }

  /** Inserting from a stream without characters counts as a failure of the copy. */
  predicate CopyReportsSuccess(files: Files, from: string) {
    Content(files, from) != []
  }

  /** The files after a backup and after a restore when the target of the copy can be opened. */
  function BackedUp(files: Files, path: string, name: string): Files
    requires path != ""
  {
    Copied(files, JoinPath(path, name), BackupPath(path, name))
  }

  function Restored(files: Files, path: string, name: string): Files
    requires path != ""
  {
    Copied(files, BackupPath(path, name), JoinPath(path, name)) - {BackupPath(path, name)}
  }

  /** After a restore in general: the backup is deleted whether the target could be opened or not. */
  function AfterRestore(files: Files, path: string, name: string, opens: bool, removes: bool): Files
    requires path != ""
  {
    var copied := if opens then Copied(files, BackupPath(path, name), JoinPath(path, name)) else files;
    if removes then copied - {BackupPath(path, name)} else copied
  }

  class Storage {
    var files: Files

    constructor (files: Files)
      ensures this.files == files
    {
      this.files := files;
    }

    /** `dest << src.rdbuf()` on freshly opened streams; `opens` says whether the destination can
        be opened. */
    method Copy(from: string, to: string, opens: bool) returns (ok: bool)
      modifies this
      ensures files == if opens then Copied(old(files), from, to) else old(files)
      ensures ok <==> opens && CopyReportsSuccess(old(files), from)
    {
      ok := from in files;
      var content := if from in files then files[from] else [];
      if opens {
        files := files[to := content];
        if content == [] {
          ok := false;
        }
      } else {
        ok := false;
      }
    }

    method FileDelete(path: string, name: string, removes: bool) returns (code: int)
      requires path != ""
      modifies this
      ensures code == if removes && JoinPath(path, name) in old(files) then SUCCESS else FAILED
      ensures files == if code == SUCCESS then old(files) - {JoinPath(path, name)} else old(files)
    {
      var file := JoinPath(path, name);
      if !removes || file !in files {
        return FAILED;
      }
      files := files - {file};
      return SUCCESS;
    }

    method FileBackup(path: string, name: string, opens: bool) returns (code: int)
      requires path != ""
      modifies this
      ensures files == if opens then BackedUp(old(files), path, name) else old(files)
      ensures code == if opens && CopyReportsSuccess(old(files), JoinPath(path, name)) then SUCCESS else FAILED
    {
      var target := JoinPath(path, name) + BACKUP_SUFFIX;
      var ok := Copy(JoinPath(path, name), target, opens);
      code := if ok then SUCCESS else FAILED;
    }

    /** The result of the deletion is ignored. The backup is deleted under the path built from the
        suffixed name, which is the path it was written to. */
    method FileRestore(path: string, name: string, opens: bool, removes: bool) returns (code: int)
      requires path != ""
      modifies this
      ensures files == AfterRestore(old(files), path, name, opens, removes)
      ensures opens && removes ==> files == Restored(old(files), path, name)
      ensures code == if opens && CopyReportsSuccess(old(files), BackupPath(path, name)) then SUCCESS else FAILED
    {
      var source := JoinPath(path, name) + BACKUP_SUFFIX;
      var ok := Copy(source, JoinPath(path, name), opens);
      SuffixCommutes(path, name);
      var deleted := FileDelete(path, name + BACKUP_SUFFIX, removes);
      code := if ok then SUCCESS else FAILED;
    }
  }

  /** A path is the folder and the name with exactly one slash between them that was not there. */
  lemma JoinedPath(folder: string, name: string)
    requires folder != "" && folder[|folder| - 1] != '/'
    ensures JoinPath(folder, name) == folder + "/" + name == JoinPath(folder + "/", name)
    ensures BackupPath(folder, name) == folder + "/" + name + "_origin"
  {
  }

  /** The two ways of building the path of the backup coincide. */
  lemma SuffixCommutes(path: string, name: string)
    requires path != ""
    ensures JoinPath(path, name + BACKUP_SUFFIX) == BackupPath(path, name)
    ensures BackupPath(path, name) != JoinPath(path, name)
  {
  }

  /** In one folder, backups of different files never meet. */
  lemma BackupPathInjective(path: string, a: string, b: string)
    requires path != "" && BackupPath(path, a) == BackupPath(path, b)
    ensures a == b
  {
    var prefix := JoinPath(path, "");
    assert BackupPath(path, a) == prefix + a + BACKUP_SUFFIX;
    assert BackupPath(path, b) == prefix + b + BACKUP_SUFFIX;
    var s := BackupPath(path, a);
    assert a == s[|prefix|..|s| - |BACKUP_SUFFIX|];
    assert b == s[|prefix|..|s| - |BACKUP_SUFFIX|];
  }

  /** What other programs do to the files between the two calls. */
  datatype Change = Write(file: string, content: Bytes) | Remove(file: string)

  function Apply(files: Files, change: Change): Files {
    match change
    case Write(file, content) => files[file := content]
    case Remove(file) => files - {file}
  }

  function ApplyAll(files: Files, changes: seq<Change>): Files
    decreases |changes|
  {
    if changes == [] then files else ApplyAll(Apply(files, changes[0]), changes[1..])
  }

  predicate Spares(changes: seq<Change>, file: string) {
    forall i :: 0 <= i < |changes| ==> changes[i].file != file
  }

  lemma {:induction false} SparedStays(files: Files, changes: seq<Change>, file: string)
    requires Spares(changes, file)
    ensures file in ApplyAll(files, changes) <==> file in files
    ensures Content(ApplyAll(files, changes), file) == Content(files, file)
    decreases |changes|
  {
    if changes != [] {
      SparedStays(Apply(files, changes[0]), changes[1..], file);
    }
  }

  /** Backup, any changes that spare the backup, restore: the file has its content back, the
      backup is gone, every other file is as the changes left it, and the two calls report
      success for the same contents. */
  lemma RestoreUndoesChanges(files: Files, path: string, name: string, changes: seq<Change>)
    requires path != "" && Spares(changes, BackupPath(path, name))
    ensures var file, backup := JoinPath(path, name), BackupPath(path, name);
            var changed := ApplyAll(BackedUp(files, path, name), changes);
            var after := Restored(changed, path, name);
            && after == changed[file := Content(files, file)] - {backup}
            && file in after && after[file] == Content(files, file)
            && backup !in after
            && (CopyReportsSuccess(changed, backup) <==> CopyReportsSuccess(files, file))
            && (CopyReportsSuccess(files, file) <==> file in files && files[file] != [])
  {
    var backup := BackupPath(path, name);
    SuffixCommutes(path, name);
    SparedStays(BackedUp(files, path, name), changes, backup);
  }

  /** Changes that neither look at nor touch the backup commute with its presence. */
  lemma {:induction false} ApplyAllOverwritten(a: Files, b: Files, changes: seq<Change>, except: set<string>)
    requires a - except == b - except
    ensures ApplyAll(a, changes) - except == ApplyAll(b, changes) - except
    decreases |changes|
  {
    if changes != [] {
      var x, y := Apply(a, changes[0]), Apply(b, changes[0]);
      forall f | f !in except
        ensures (f in x <==> f in y) && (f in x ==> x[f] == y[f])
      {
        assert (f in a - except <==> f in b - except) && (f in a ==> a[f] == (a - except)[f]);
      }
      assert x - except == y - except;
      ApplyAllOverwritten(x, y, changes[1..], except);
    }
  }

  /** The whole cycle touches two names only: for every other file it is as if neither call had
      been made. */
  lemma OthersUntouched(files: Files, path: string, name: string, changes: seq<Change>, other: string)
    requires path != "" && other != JoinPath(path, name) && other != BackupPath(path, name)
    ensures var after := Restored(ApplyAll(BackedUp(files, path, name), changes), path, name);
            && (other in after <==> other in ApplyAll(files, changes))
            && (other in after ==> after[other] == ApplyAll(files, changes)[other])
  {
    var backup := BackupPath(path, name);
    var a, b := ApplyAll(BackedUp(files, path, name), changes), ApplyAll(files, changes);
    assert BackedUp(files, path, name) - {backup} == files - {backup};
    ApplyAllOverwritten(BackedUp(files, path, name), files, changes, {backup});
    assert other in a - {backup} <==> other in b - {backup};
    assert other in a ==> (a - {backup})[other] == a[other];
  }

  /** With nothing in between, the cycle is the identity exactly when the file existed and no file
      had the name of the backup: a missing file comes back as an empty one, and a file under
      that name is lost. */
  lemma CycleIsIdentityIff(files: Files, path: string, name: string)
    requires path != ""
    ensures Restored(BackedUp(files, path, name), path, name) == files
            <==> JoinPath(path, name) in files && BackupPath(path, name) !in files
  {
  }

  /** A restore without a backup does not leave the file alone: it empties it, and reports it. */
  lemma RestoreWithoutBackupEmpties(files: Files, path: string, name: string)
    requires path != "" && BackupPath(path, name) !in files
    ensures Restored(files, path, name) == files[JoinPath(path, name) := []]
    ensures !CopyReportsSuccess(files, BackupPath(path, name))
  {
  }

  /** After a backup, any changes that spare it, and a restore, the content that was saved is in the file
      or in the backup exactly when the target could be opened, or the deletion failed, or the file
      still had it. A restore that cannot write its target deletes the only copy. */
  lemma SavedSurvivesIff(files: Files, path: string, name: string, changes: seq<Change>, opens: bool, removes: bool)
    requires path != "" && Spares(changes, BackupPath(path, name))
    ensures var file, backup := JoinPath(path, name), BackupPath(path, name);
            var changed := ApplyAll(BackedUp(files, path, name), changes);
            var after, saved := AfterRestore(changed, path, name, opens, removes), Content(files, file);
            (file in after && after[file] == saved) || (backup in after && after[backup] == saved)
            <==> opens || !removes || (file in changed && changed[file] == saved)
  {
    var backup := BackupPath(path, name);
    SuffixCommutes(path, name);
    SparedStays(BackedUp(files, path, name), changes, backup);
  }
}
