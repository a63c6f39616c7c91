// packages/cli/src/file-writer.js: writeAtomicFile and writeExportPackage over a file system whose operations
// may fail. Output, staging and backup are the three paths they touch below the parent directory; the nonce
// makes staging and backup unused names. A removal either happens or fails without effect.

module FileWriter {
  import opened Results

  type Bytes = seq<bv8>

  datatype Node = File(bytes: Bytes) | Directory(files: map<string, Bytes>)

  datatype Place = Output | Staging | Backup

  datatype Fs = Fs(output: Option<Node>, staging: Option<Node>, backup: Option<Node>) {
    function At(place: Place): Option<Node> {
      match place
      case Output => output
      case Staging => staging
      case Backup => backup
    }

    function With(place: Place, node: Option<Node>): Fs {
      match place
      case Output => this.(output := node)
      case Staging => this.(staging := node)
      case Backup => this.(backup := node)
    }
  }

  // How a write fails: it leaves what was written so far, or nothing.
  datatype WriteFault = Works | Leaves(partial: Option<Bytes>)

  // Which operations fail, one entry for each place in the source where one is carried out. A failing check
  // is also what reading back an export package that cannot be verified amounts to.
  datatype Faults = Faults(
    makeParent: bool,
    stat: bool,
    readdir: bool,
    makeStaging: bool,
    writes: nat -> WriteFault,
    checkStaged: bool,
    moveAside: bool,
    install: bool,
    undo: bool,
    checkInstalled: bool,
    removeBackup: bool,
    removeStaging: bool,
    removeOutput: bool,
    statBackup: bool,
    restore: bool)

  datatype Status = Written | AlreadyExists | WriteFailed

  // What a call does: the state after each of its operations, and how it ends.
  datatype Run = Run(states: seq<Fs>, status: Status)

  function Then(s: Fs, rest: Run): Run {
    Run([s] + rest.states, rest.status)
  }

  // The state in which a call that starts in fs leaves the file system.
  function End(fs: Fs, run: Run): Fs {
    if run.states == [] then fs else run.states[|run.states| - 1]
  }

  // ---- Operations ----

  // rename of POSIX: it replaces a file by a file, and an empty directory by a directory.
  predicate Renames(fs: Fs, from: Place, to: Place, fault: bool) {
    && !fault && fs.At(from).Some?
    && (fs.At(to).None?
        || (fs.At(from).value.File? && fs.At(to).value.File?)
        || (fs.At(from).value.Directory? && fs.At(to).value == Directory(map[])))
  }

  function Rename(fs: Fs, from: Place, to: Place, fault: bool): Fs {
    if Renames(fs, from, to, fault) then fs.With(from, None).With(to, fs.At(from)) else fs
  }

  // rm with force: without recursive it refuses a directory.
  predicate Removes(fs: Fs, place: Place, recursive: bool, fault: bool) {
    !fault && (fs.At(place).Some? && fs.At(place).value.Directory? ==> recursive)
  }

  function Remove(fs: Fs, place: Place, recursive: bool, fault: bool): Fs {
    if Removes(fs, place, recursive, fault) then fs.With(place, None) else fs
  }

  function WriteFile(fs: Fs, bytes: Bytes, fault: WriteFault): Fs {
    match fault
    case Works => fs.(staging := Some(File(bytes)))
    case Leaves(None) => fs
    case Leaves(Some(partial)) => fs.(staging := Some(File(partial)))
  }

  class FileSystem {
    var nodes: Fs
    ghost var history: seq<Fs>

    constructor (nodes: Fs)
      ensures this.nodes == nodes && history == [nodes]
    {
      this.nodes := nodes;
      history := [nodes];
    }

    method RenamePath(from: Place, to: Place, fault: bool) returns (ok: bool)
      modifies this
      ensures nodes == Rename(old(nodes), from, to, fault) && history == old(history) + [nodes]
      ensures ok == Renames(old(nodes), from, to, fault)
    {
      ok := Renames(nodes, from, to, fault);
      nodes := Rename(nodes, from, to, fault);
      history := history + [nodes];
    }

    method RemovePath(place: Place, recursive: bool, fault: bool) returns (ok: bool)
      modifies this
      ensures nodes == Remove(old(nodes), place, recursive, fault) && history == old(history) + [nodes]
      ensures ok == Removes(old(nodes), place, recursive, fault)
    {
      ok := Removes(nodes, place, recursive, fault);
      nodes := Remove(nodes, place, recursive, fault);
      history := history + [nodes];
    }

    method MakeStaging()
      modifies this
      ensures nodes == old(nodes).(staging := Some(Directory(map[]))) && history == old(history) + [nodes]
    {
      nodes := nodes.(staging := Some(Directory(map[])));
      history := history + [nodes];
    }

    method WriteIntoStaging(file: Named, fault: WriteFault) returns (ok: bool)
      modifies this
      ensures nodes == AddFile(old(nodes), file, fault) && history == old(history) + [nodes]
      ensures ok == fault.Works?
    {
      ok := fault.Works?;
      nodes := AddFile(nodes, file, fault);
      history := history + [nodes];
    }

    method WriteStaging(bytes: Bytes, fault: WriteFault) returns (ok: bool)
      modifies this
      ensures nodes == WriteFile(old(nodes), bytes, fault) && history == old(history) + [nodes]
      ensures ok == fault.Works?
    {
      ok := fault.Works?;
      nodes := WriteFile(nodes, bytes, fault);
      history := history + [nodes];
    }
  }

  // ---- writeAtomicFile ----

  // The catch block.
  function RollbackFile(s: Fs, backedUp: bool, f: Faults): (r: Run)
    ensures r.status == WriteFailed
  {
    var t := Remove(s, Staging, false, f.removeStaging);
    if !backedUp then Run([t], WriteFailed)
    else
      var u := Remove(t, Output, false, f.removeOutput);
      Run([t, u, Rename(u, Backup, Output, f.restore)], WriteFailed)
  }

  function CleanFile(s: Fs, f: Faults): Run {
    Then(Remove(s, Backup, false, f.removeBackup),
         if Removes(s, Backup, false, f.removeBackup) then Run([], Written)
         else RollbackFile(Remove(s, Backup, false, f.removeBackup), true, f))
  }

  function InstallFile(s: Fs, backedUp: bool, f: Faults): Run {
    var t := Rename(s, Staging, Output, f.install);
    Then(t, if !Renames(s, Staging, Output, f.install) then RollbackFile(t, backedUp, f)
            else if backedUp then CleanFile(t, f)
            else Run([], Written))
  }

  function MoveFileAside(s: Fs, f: Faults): Run {
    var t := Rename(s, Output, Backup, f.moveAside);
    Then(t, if Renames(s, Output, Backup, f.moveAside) then InstallFile(t, true, f) else RollbackFile(t, false, f))
  }

  function AtomicFile(fs: Fs, bytes: Bytes, overwrite: bool, f: Faults): Run {
    var present := !f.stat && fs.output.Some?;
    var t := WriteFile(fs, bytes, f.writes(0));
    if f.makeParent then Run([], WriteFailed)
    else if present && !overwrite then Run([], AlreadyExists)
    else Then(t, if !f.writes(0).Works? then RollbackFile(t, false, f)
                 else if present then MoveFileAside(t, f)
                 else InstallFile(t, false, f))
  }

  // What a call that has brought the file system from fs to s still does.
  twostate predicate Does(fs: FileSystem, run: Run)
    reads fs
  {
    fs.nodes == End(old(fs.nodes), run) && fs.history == old(fs.history) + run.states
  }

  lemma Onwards(history: seq<Fs>, s: Fs, rest: Run)
    ensures history + Then(s, rest).states == (history + [s]) + rest.states
    ensures forall fs :: End(fs, Then(s, rest)) == End(s, rest)
  {}

  method RunRollbackFile(fs: FileSystem, backedUp: bool, f: Faults)
    modifies fs
    ensures Does(fs, RollbackFile(old(fs.nodes), backedUp, f))
  {
    hide Remove, Rename;
    var _ := fs.RemovePath(Staging, false, f.removeStaging);
    if backedUp {
      var _ := fs.RemovePath(Output, false, f.removeOutput);
      var _ := fs.RenamePath(Backup, Output, f.restore);
    }
  }

  method WriteAtomicFile(fs: FileSystem, bytes: Bytes, overwrite: bool, f: Faults) returns (status: Status)
    modifies fs
    ensures var run := AtomicFile(old(fs.nodes), bytes, overwrite, f);
      status == run.status && Does(fs, run)
  {
    hide Remove, Rename, WriteFile, Removes, Renames, RollbackFile, InstallFile, MoveFileAside;
    if f.makeParent { return WriteFailed; }
    var present := !f.stat && fs.nodes.output.Some?;
    if present && !overwrite { return AlreadyExists; }
    var ok := fs.WriteStaging(bytes, f.writes(0));
    Onwards(old(fs.history), fs.nodes,
            if !ok then RollbackFile(fs.nodes, false, f)
            else if present then MoveFileAside(fs.nodes, f)
            else InstallFile(fs.nodes, false, f));
    if !ok {
      RunRollbackFile(fs, false, f);
      return WriteFailed;
    }
    if present {
      status := MoveAsideAndInstall(fs, f);
    } else {
      status := InstallStaged(fs, false, f);
    }
  }

  // The rest of the try block with an existing output ...
  method MoveAsideAndInstall(fs: FileSystem, f: Faults) returns (status: Status)
    modifies fs
    ensures var run := MoveFileAside(old(fs.nodes), f);
      status == run.status && Does(fs, run)
  {
    hide Remove, Rename, Removes, Renames, RollbackFile, InstallFile;
    var backedUp := fs.RenamePath(Output, Backup, f.moveAside);
    Onwards(old(fs.history), fs.nodes,
            if backedUp then InstallFile(fs.nodes, true, f) else RollbackFile(fs.nodes, false, f));
    if !backedUp {
      RunRollbackFile(fs, false, f);
      return WriteFailed;
    }
    status := InstallStaged(fs, true, f);
  }

  // ... and from the installation on.
  method InstallStaged(fs: FileSystem, backedUp: bool, f: Faults) returns (status: Status)
    modifies fs
    ensures var run := InstallFile(old(fs.nodes), backedUp, f);
      status == run.status && Does(fs, run)
  {
    hide Remove, Rename, Removes, Renames, RollbackFile;
    var ok := fs.RenamePath(Staging, Output, f.install);
    ghost var installed := fs.history;
    Onwards(old(fs.history), fs.nodes,
            if !ok then RollbackFile(fs.nodes, backedUp, f)
            else if backedUp then CleanFile(fs.nodes, f)
            else Run([], Written));
    if ok && backedUp {
      ok := fs.RemovePath(Backup, false, f.removeBackup);
      Onwards(installed, fs.nodes, if ok then Run([], Written) else RollbackFile(fs.nodes, true, f));
    }
    if ok { return Written; }
    RunRollbackFile(fs, backedUp, f);
    return WriteFailed;
  }

  // A state as a call finds it.
  predicate Fresh(fs: Fs) {
    fs.staging.None? && fs.backup.None?
  }

  // What stood at the output is still there or at the backup, or the new node stands at the output.
  predicate Safe(s: Fs, before: Fs, node: Node) {
    before.output.Some? ==> s.output == before.output || s.output == Some(node) || s.backup == before.output
  }

  predicate AllSafe(run: Run, before: Fs, node: Node) {
    forall s <- run.states :: Safe(s, before, node)
  }

  // Under every pattern of faults no state loses the old data before the new data is installed.
  lemma FileNeverLost(fs: Fs, bytes: Bytes, overwrite: bool, f: Faults)
    requires Fresh(fs)
    ensures AllSafe(AtomicFile(fs, bytes, overwrite, f), fs, File(bytes))
  {
    hide InstallFile;
    InstallFileSafe(fs, Fs(fs.output, Some(File(bytes)), None), false, bytes, f);
    InstallFileSafe(fs, Fs(None, Some(File(bytes)), fs.output), true, bytes, f);
  }

  lemma InstallFileSafe(fs: Fs, s: Fs, backedUp: bool, bytes: Bytes, f: Faults)
    requires s.staging == Some(File(bytes))
    requires if backedUp then s.output.None? && s.backup == fs.output else s.output == fs.output && s.backup.None?
    ensures AllSafe(InstallFile(s, backedUp, f), fs, File(bytes))
  {
    hide Safe;
    var run := InstallFile(s, backedUp, f);
    forall u <- run.states
      ensures Safe(u, fs, File(bytes))
    {
      InstallFileState(fs, s, backedUp, bytes, f, u);
    }
  }

  lemma InstallFileState(fs: Fs, s: Fs, backedUp: bool, bytes: Bytes, f: Faults, u: Fs)
    requires s.staging == Some(File(bytes)) && u in InstallFile(s, backedUp, f).states
    requires if backedUp then s.output.None? && s.backup == fs.output else s.output == fs.output && s.backup.None?
    ensures Safe(u, fs, File(bytes))
  {}

  // Success leaves exactly the new file.
  lemma FileWritten(fs: Fs, bytes: Bytes, overwrite: bool, f: Faults)
    requires Fresh(fs) && AtomicFile(fs, bytes, overwrite, f).status == Written
    ensures End(fs, AtomicFile(fs, bytes, overwrite, f)) == Fs(Some(File(bytes)), None, None)
  {}

  // A failure whose rollback works leaves everything as it was.
  lemma FileRestored(fs: Fs, bytes: Bytes, overwrite: bool, f: Faults)
    requires Fresh(fs) && AtomicFile(fs, bytes, overwrite, f).status != Written
    requires !f.removeStaging && !f.removeOutput && !f.restore
    ensures End(fs, AtomicFile(fs, bytes, overwrite, f)) == fs
  {}

  // When a call succeeds, and when it refuses: an output that is seen is replaced only on demand, by moving it aside
  // and removing it in the end; one that is not seen is replaced by the installation.
  lemma FileSucceedsExactly(fs: Fs, bytes: Bytes, overwrite: bool, f: Faults)
    requires Fresh(fs)
    ensures var status, seen := AtomicFile(fs, bytes, overwrite, f).status, fs.output.Some? && !f.stat;
      && (status == Written <==>
           && !f.makeParent && f.writes(0).Works? && !f.install && (fs.output.Some? ==> fs.output.value.File?)
           && (seen ==> overwrite && !f.moveAside && !f.removeBackup))
      && (status == AlreadyExists <==> !f.makeParent && seen && !overwrite)
  {}

  // Without overwrite an existing output is replaced exactly when the look at it fails, it is a file, and
  // everything else works: a failing stat is taken for a free path.
  lemma OverwriteHonouredExactly(fs: Fs, bytes: Bytes, f: Faults)
    requires Fresh(fs) && fs.output.Some?
    ensures AtomicFile(fs, bytes, false, f).status == Written
        <==> f.stat && fs.output.value.File? && !f.makeParent && f.writes(0).Works? && !f.install
  {}

  // ---- writeExportPackage ----

  datatype Named = Named(name: string, bytes: Bytes)

  // verifyExportPackage accepts exactly three files with the names of EXPECTED.
  const EXPECTED: seq<string> :=
    ["veilforge-export-manifest.json", "veilforge-report-v4.json", "veilforge-report-v4.md"]
  const INTEGRATION: seq<string> := ["veilforge-results-v4.sarif", "veilforge-gate-result-v4.json"]

  predicate IsPackage(files: seq<Named>) {
    |files| == 3 && forall i :: 0 <= i < 3 ==> files[i].name == EXPECTED[i]
  }

  function Contents(files: seq<Named>): map<string, Bytes> {
    if files == [] then map[] else Contents(files[..|files| - 1])[files[|files| - 1].name := files[|files| - 1].bytes]
  }

  // One more file in the staging directory, or what a failing write leaves of it.
  function AddFile(s: Fs, file: Named, fault: WriteFault): Fs {
    if s.staging.None? || s.staging.value.File? then s
    else
      var files := s.staging.value.files;
      match fault
      case Works => s.(staging := Some(Directory(files[file.name := file.bytes])))
      case Leaves(None) => s
      case Leaves(Some(partial)) => s.(staging := Some(Directory(files[file.name := partial])))
  }

  predicate MayOverwrite(node: Node, f: Faults) {
    node.Directory? && !f.readdir && forall name <- node.files :: name in EXPECTED || name in INTEGRATION
  }

  // The outer catch block.
  function RollbackPackage(s: Fs, installed: bool, f: Faults): (r: Run)
    ensures r.status == WriteFailed
  {
    var t := Remove(s, Staging, true, f.removeStaging);
    var u := if installed then Remove(t, Output, true, f.removeOutput) else t;
    var removed := if installed then [t, u] else [t];
    var restores := u.backup.Some? && !f.statBackup;
    Run(if restores then removed + [Rename(u, Backup, Output, f.restore)] else removed, WriteFailed)
  }

  function FinishPackage(s: Fs, backedUp: bool, f: Faults): Run {
    if f.checkInstalled then RollbackPackage(s, true, f)
    else if !backedUp then Run([], Written)
    else
      var t := Remove(s, Backup, true, f.removeBackup);
      Then(t, if Removes(s, Backup, true, f.removeBackup) then Run([], Written) else RollbackPackage(t, true, f))
  }

  // The inner try with its own attempt to undo the move.
  function InstallPackage(s: Fs, backedUp: bool, f: Faults): Run {
    var t := Rename(s, Staging, Output, f.install);
    if Renames(s, Staging, Output, f.install) then Then(t, FinishPackage(t, backedUp, f))
    else if !backedUp then Then(t, RollbackPackage(t, false, f))
    else
      var u := Rename(t, Backup, Output, f.undo);
      Then(t, Then(u, RollbackPackage(u, false, f)))
  }

  function MovePackageAside(s: Fs, present: bool, f: Faults): Run {
    if f.checkStaged then RollbackPackage(s, false, f)
    else if !present then InstallPackage(s, false, f)
    else
      var t := Rename(s, Output, Backup, f.moveAside);
      var moved := Renames(s, Output, Backup, f.moveAside);
      Then(t, if moved then InstallPackage(t, true, f) else RollbackPackage(t, false, f))
  }

  // Files i and later are still to be written.
  function StagePackage(s: Fs, files: seq<Named>, i: nat, present: bool, f: Faults): Run
    requires i <= |files|
    decreases |files| - i
  {
    if i == |files| then MovePackageAside(s, present, f)
    else
      var t := AddFile(s, files[i], f.writes(i));
      Then(t, if f.writes(i).Works? then StagePackage(t, files, i + 1, present, f) else RollbackPackage(t, false, f))
  }

  function ExportPackage(fs: Fs, files: seq<Named>, overwrite: bool, f: Faults): Run {
    var present := !f.stat && fs.output.Some?;
    if f.makeParent then Run([], WriteFailed)
    else if present && !overwrite then Run([], AlreadyExists)
    else if present && !MayOverwrite(fs.output.value, f) then Run([], WriteFailed)
    else if f.makeStaging then RollbackPackage(fs, false, f)
    else
      var t := fs.(staging := Some(Directory(map[])));
      Then(t, StagePackage(t, files, 0, present, f))
  }

  method RunRollbackPackage(fs: FileSystem, installed: bool, f: Faults)
    modifies fs
    ensures Does(fs, RollbackPackage(old(fs.nodes), installed, f))
  {
    hide Remove, Rename;
    var _ := fs.RemovePath(Staging, true, f.removeStaging);
    if installed {
      var _ := fs.RemovePath(Output, true, f.removeOutput);
    }
    if fs.nodes.backup.Some? && !f.statBackup {
      var _ := fs.RenamePath(Backup, Output, f.restore);
    }
  }

  method WriteExportPackage(fs: FileSystem, files: seq<Named>, overwrite: bool, f: Faults) returns (status: Status)
    modifies fs
    ensures var run := ExportPackage(old(fs.nodes), files, overwrite, f);
      status == run.status && Does(fs, run)
  {
    hide StagePackage, RollbackPackage, MayOverwrite;
    if f.makeParent { return WriteFailed; }
    var present := !f.stat && fs.nodes.output.Some?;
    if present && !overwrite { return AlreadyExists; }
    if present && !MayOverwrite(fs.nodes.output.value, f) { return WriteFailed; }
    if f.makeStaging {
      RunRollbackPackage(fs, false, f);
      return WriteFailed;
    }
    fs.MakeStaging();
    Onwards(old(fs.history), fs.nodes, StagePackage(fs.nodes, files, 0, present, f));
    status := WriteFiles(fs, files, present, f);
  }

  method WriteFiles(fs: FileSystem, files: seq<Named>, present: bool, f: Faults) returns (status: Status)
    modifies fs
    ensures var run := StagePackage(old(fs.nodes), files, 0, present, f);
      status == run.status && Does(fs, run)
  {
    hide MovePackageAside, RollbackPackage, AddFile;
    ghost var run := StagePackage(fs.nodes, files, 0, present, f);
    for i := 0 to |files|
      invariant var rest := StagePackage(fs.nodes, files, i, present, f);
        && run.status == rest.status && old(fs.history) + run.states == fs.history + rest.states
        && End(old(fs.nodes), run) == End(fs.nodes, rest)
    {
      ghost var before := fs.history;
      var ok := fs.WriteIntoStaging(files[i], f.writes(i));
      Onwards(before, fs.nodes,
              if ok then StagePackage(fs.nodes, files, i + 1, present, f) else RollbackPackage(fs.nodes, false, f));
      if !ok {
        RunRollbackPackage(fs, false, f);
        return WriteFailed;
      }
    }
    status := MoveAsideAndInstallPackage(fs, present, f);
  }

  method MoveAsideAndInstallPackage(fs: FileSystem, present: bool, f: Faults) returns (status: Status)
    modifies fs
    ensures var run := MovePackageAside(old(fs.nodes), present, f);
      status == run.status && Does(fs, run)
  {
    hide InstallPackage, RollbackPackage, Rename, Renames;
    if f.checkStaged {
      RunRollbackPackage(fs, false, f);
      return WriteFailed;
    }
    var backedUp := false;
    if present {
      backedUp := fs.RenamePath(Output, Backup, f.moveAside);
      Onwards(old(fs.history), fs.nodes,
              if backedUp then InstallPackage(fs.nodes, true, f) else RollbackPackage(fs.nodes, false, f));
      if !backedUp {
        RunRollbackPackage(fs, false, f);
        return WriteFailed;
      }
    }
    status := InstallStagedPackage(fs, backedUp, f);
  }

  method InstallStagedPackage(fs: FileSystem, backedUp: bool, f: Faults) returns (status: Status)
    modifies fs
    ensures var run := InstallPackage(old(fs.nodes), backedUp, f);
      status == run.status && Does(fs, run)
  {
    hide FinishPackage, RollbackPackage, Rename, Renames;
    var installed := fs.RenamePath(Staging, Output, f.install);
    if installed {
      Onwards(old(fs.history), fs.nodes, FinishPackage(fs.nodes, backedUp, f));
      status := FinishInstalled(fs, backedUp, f);
      return;
    }
    ghost var before, s := fs.history, fs.nodes;
    if backedUp {
      var _ := fs.RenamePath(Backup, Output, f.undo);
      Onwards(before, fs.nodes, RollbackPackage(fs.nodes, false, f));
      Onwards(old(fs.history), s, Then(fs.nodes, RollbackPackage(fs.nodes, false, f)));
    } else {
      Onwards(old(fs.history), s, RollbackPackage(s, false, f));
    }
    RunRollbackPackage(fs, false, f);
    return WriteFailed;
  }

  method FinishInstalled(fs: FileSystem, backedUp: bool, f: Faults) returns (status: Status)
    modifies fs
    ensures var run := FinishPackage(old(fs.nodes), backedUp, f);
      status == run.status && Does(fs, run)
  {
    hide RollbackPackage, Remove, Removes;
    var ok := !f.checkInstalled;
    if ok && backedUp {
      ok := fs.RemovePath(Backup, true, f.removeBackup);
      Onwards(old(fs.history), fs.nodes, if ok then Run([], Written) else RollbackPackage(fs.nodes, true, f));
    }
    if ok { return Written; }
    RunRollbackPackage(fs, true, f);
    return WriteFailed;
  }

  // ---- The properties of writeExportPackage ----

  predicate RollbackWorks(f: Faults) {
    !f.removeStaging && !f.removeOutput && !f.statBackup && !f.restore
  }

  // The one case that the rollback cannot repair: the output was not seen, it was an empty directory, which
  // the installation replaces, and the installed package does not pass the last check.
  predicate LostWhenStaged(fs: Fs, present: bool, f: Faults) {
    !present && fs.output == Some(Directory(map[])) && !f.checkStaged && !f.install && f.checkInstalled
  }

  predicate AllWritten(f: Faults, i: nat, n: nat) {
    forall k :: i <= k < n ==> f.writes(k).Works?
  }

  // How a call that found fs goes on from s: nothing is lost on the way, and it ends with exactly the new
  // package or, if the rollback works, with what it found.
  predicate GoesWell(fs: Fs, s: Fs, run: Run, node: Node, lost: bool, f: Faults) {
    && (!lost ==> AllSafe(run, fs, node))
    && (run.status == Written ==> End(s, run) == Fs(Some(node), None, None))
    && (run.status == WriteFailed && RollbackWorks(f) ==> (End(s, run) == fs <==> !lost))
  }

  lemma ThenGoesWell(fs: Fs, s: Fs, t: Fs, rest: Run, node: Node, lost: bool, f: Faults)
    requires GoesWell(fs, t, rest, node, lost, f) && (!lost ==> Safe(t, fs, node))
    ensures GoesWell(fs, s, Then(t, rest), node, lost, f)
  {}

  // The new package stands at the output.
  lemma FinishGoesWell(fs: Fs, t: Fs, backedUp: bool, node: Node, f: Faults)
    requires Fresh(fs) && node.Directory? && t.output == Some(node) && t.staging.None?
    requires if backedUp then fs.output.Some? && t.backup == fs.output else t.backup.None?
    requires !backedUp ==> fs.output.None? || fs.output == Some(Directory(map[]))
    ensures GoesWell(fs, t, FinishPackage(t, backedUp, f), node,
                     !backedUp && fs.output.Some? && f.checkInstalled, f)
  {}

  // The installation has failed.
  lemma NotInstalledGoesWell(fs: Fs, t: Fs, backedUp: bool, node: Node, f: Faults)
    requires Fresh(fs) && t.staging == Some(node)
    requires if backedUp then fs.output.Some? && t.output.None? && t.backup == fs.output
             else t.output == fs.output && t.backup.None?
    ensures GoesWell(fs, t, RollbackPackage(t, false, f), node, false, f)
  {}

  // Once the old output is aside, or was not seen.
  lemma InstallGoesWell(fs: Fs, s: Fs, backedUp: bool, node: Node, f: Faults)
    requires Fresh(fs) && s.staging == Some(node) && node.Directory? && !f.checkStaged
    requires if backedUp then fs.output.Some? && s.output.None? && s.backup == fs.output
             else s.output == fs.output && s.backup.None?
    ensures GoesWell(fs, s, InstallPackage(s, backedUp, f), node, LostWhenStaged(fs, backedUp, f), f)
  {
    hide GoesWell, FinishPackage, RollbackPackage;
    var t := Rename(s, Staging, Output, f.install);
    if Renames(s, Staging, Output, f.install) {
      FinishGoesWell(fs, t, backedUp, node, f);
      ThenGoesWell(fs, s, t, FinishPackage(t, backedUp, f), node, LostWhenStaged(fs, backedUp, f), f);
    } else {
      NotInstalledGoesWell(fs, t, backedUp, node, f);
      if backedUp {
        var u := Rename(t, Backup, Output, f.undo);
        UndoneGoesWell(fs, t, u, node, f);
        ThenGoesWell(fs, s, t, Then(u, RollbackPackage(u, false, f)), node, false, f);
      } else {
        ThenGoesWell(fs, s, t, RollbackPackage(t, false, f), node, false, f);
      }
    }
  }

  lemma UndoneGoesWell(fs: Fs, t: Fs, u: Fs, node: Node, f: Faults)
    requires Fresh(fs) && t.staging == Some(node) && fs.output.Some? && t.output.None? && t.backup == fs.output
    requires u == Rename(t, Backup, Output, f.undo)
    ensures GoesWell(fs, t, Then(u, RollbackPackage(u, false, f)), node, false, f)
  {}

  lemma StagedGoesWell(fs: Fs, s: Fs, present: bool, node: Node, f: Faults)
    requires Fresh(fs) && s == fs.(staging := Some(node)) && node.Directory? && node.files != map[]
    requires present ==> fs.output.Some? && fs.output.value.Directory?
    ensures GoesWell(fs, s, MovePackageAside(s, present, f), node, LostWhenStaged(fs, present, f), f)
  {
    hide InstallPackage, GoesWell;
    var t := Rename(s, Output, Backup, f.moveAside);
    assert GoesWell(fs, s, RollbackPackage(s, false, f), node, false, f) by { RollbackGoesWell(fs, s, node, f); }
    if !f.checkStaged {
      if !present {
        InstallGoesWell(fs, s, false, node, f);
      } else if Renames(s, Output, Backup, f.moveAside) {
        InstallGoesWell(fs, t, true, node, f);
        ThenGoesWell(fs, s, t, InstallPackage(t, true, f), node, false, f);
      } else {
        ThenGoesWell(fs, s, t, RollbackPackage(t, false, f), node, false, f);
      }
    }
  }

  // Before the output is touched, the rollback only removes the staging directory.
  lemma RollbackGoesWell(fs: Fs, s: Fs, node: Node, f: Faults)
    requires Fresh(fs) && s == fs.(staging := s.staging)
    ensures GoesWell(fs, s, RollbackPackage(s, false, f), node, false, f)
  {}

  lemma ContentsGrow(files: seq<Named>, i: nat)
    requires i < |files|
    ensures Contents(files[..i + 1]) == Contents(files[..i])[files[i].name := files[i].bytes]
  {
    assert files[..i + 1][..i] == files[..i];
  }

  lemma {:induction false} StagingGoesWell(fs: Fs, s: Fs, files: seq<Named>, i: nat, present: bool, f: Faults)
    requires Fresh(fs) && 0 < |files| && i <= |files|
    requires s == fs.(staging := Some(Directory(Contents(files[..i]))))
    requires present ==> fs.output.Some? && fs.output.value.Directory?
    ensures GoesWell(fs, s, StagePackage(s, files, i, present, f), Directory(Contents(files)),
                     LostWhenStaged(fs, present, f) && AllWritten(f, i, |files|), f)
    decreases |files| - i
  {
    hide MovePackageAside, RollbackPackage, GoesWell, LostWhenStaged, Safe;
    var node := Directory(Contents(files));
    if i == |files| {
      assert files[..i] == files;
      assert files[|files| - 1].name in Contents(files);
      StagedGoesWell(fs, s, present, node, f);
    } else {
      var t := AddFile(s, files[i], f.writes(i));
      ContentsGrow(files, i);
      assert Safe(t, fs, node) by { OutputUntouched(t, fs, node); }
      if f.writes(i).Works? {
        StagingGoesWell(fs, t, files, i + 1, present, f);
        ThenGoesWell(fs, s, t, StagePackage(t, files, i + 1, present, f), node,
                     LostWhenStaged(fs, present, f) && AllWritten(f, i + 1, |files|), f);
      } else {
        RollbackGoesWell(fs, t, node, f);
        ThenGoesWell(fs, s, t, RollbackPackage(t, false, f), node, false, f);
      }
    }
  }

  lemma OutputUntouched(t: Fs, fs: Fs, node: Node)
    requires t.output == fs.output
    ensures Safe(t, fs, node)
  {}

  // The case in which an empty directory at the output is lost.
  predicate EmptyDirectoryLost(fs: Fs, files: seq<Named>, f: Faults) {
    && f.stat && fs.output == Some(Directory(map[]))
    && !f.makeParent && !f.makeStaging && AllWritten(f, 0, |files|) && !f.checkStaged && !f.install && f.checkInstalled
  }

  // Under every pattern of faults the old output stays at the output or at the backup until the new package
  // is installed; success leaves exactly the package; and a failure whose rollback works restores what was
  // there, with the one exception.
  lemma PackageGoesWell(fs: Fs, files: seq<Named>, overwrite: bool, f: Faults)
    requires Fresh(fs) && IsPackage(files)
    ensures var run := ExportPackage(fs, files, overwrite, f);
      && (!EmptyDirectoryLost(fs, files, f) ==> AllSafe(run, fs, Directory(Contents(files))))
      && (run.status == Written ==> End(fs, run) == Fs(Some(Directory(Contents(files))), None, None))
      && (run.status == AlreadyExists ==> End(fs, run) == fs)
      && (run.status == WriteFailed && RollbackWorks(f) ==> (End(fs, run) == fs <==> !EmptyDirectoryLost(fs, files, f)))
  {
    hide StagePackage, Contents, MayOverwrite;
    var present := !f.stat && fs.output.Some?;
    var node := Directory(Contents(files));
    if f.makeParent || (present && (!overwrite || !MayOverwrite(fs.output.value, f))) {
    } else if f.makeStaging {
      RollbackGoesWell(fs, fs, node, f);
    } else {
      var t := fs.(staging := Some(Directory(map[])));
      assert files[..0] == [] && Contents([]) == map[] by { NoContents(); }
      assert present ==> fs.output.value.Directory? by { OnlyDirectories(fs, f); }
      StagingGoesWell(fs, t, files, 0, present, f);
      ThenGoesWell(fs, fs, t, StagePackage(t, files, 0, present, f), node,
                   LostWhenStaged(fs, present, f) && AllWritten(f, 0, |files|), f);
      StagingEnds(t, files, 0, present, f);
    }
  }

  // Once staging has begun, a call does not find that the output exists.
  lemma {:induction false} StagingEnds(s: Fs, files: seq<Named>, i: nat, present: bool, f: Faults)
    requires i <= |files|
    ensures StagePackage(s, files, i, present, f).status != AlreadyExists
    decreases |files| - i
  {
    if i < |files| {
      StagingEnds(AddFile(s, files[i], f.writes(i)), files, i + 1, present, f);
    }
  }

  lemma NoContents()
    ensures Contents([]) == map[]
  {}

  lemma OnlyDirectories(fs: Fs, f: Faults)
    ensures fs.output.Some? && MayOverwrite(fs.output.value, f) ==> fs.output.value.Directory?
  {}

  // Names that a package directory may hold.
  predicate OnlyExports(files: map<string, Bytes>) {
    forall name <- files :: name in EXPECTED || name in INTEGRATION
  }

  // When the installation of a staged package succeeds.
  predicate Installs(fs: Fs, present: bool, f: Faults) {
    && !f.checkStaged && !f.install && !f.checkInstalled
    && if present then !f.moveAside && !f.removeBackup
       else fs.output.None? || fs.output == Some(Directory(map[]))
  }

  lemma StagedSucceedsExactly(fs: Fs, s: Fs, present: bool, node: Node, f: Faults)
    requires Fresh(fs) && s == fs.(staging := Some(node)) && node.Directory?
    requires present ==> fs.output.Some? && fs.output.value.Directory?
    ensures MovePackageAside(s, present, f).status == Written <==> Installs(fs, present, f)
  {}

  lemma {:induction false} StagingSucceedsExactly(fs: Fs, s: Fs, files: seq<Named>, i: nat, present: bool, f: Faults)
    requires Fresh(fs) && i <= |files| && s.staging.Some? && s.staging.value.Directory?
    requires s == fs.(staging := s.staging)
    requires present ==> fs.output.Some? && fs.output.value.Directory?
    ensures StagePackage(s, files, i, present, f).status == Written
        <==> AllWritten(f, i, |files|) && Installs(fs, present, f)
    decreases |files| - i
  {
    hide MovePackageAside, RollbackPackage, Installs;
    if i == |files| {
      StagedSucceedsExactly(fs, s, present, s.staging.value, f);
    } else if f.writes(i).Works? {
      StagingSucceedsExactly(fs, AddFile(s, files[i], f.writes(i)), files, i + 1, present, f);
    }
  }

  // The same for a package. What a directory that is seen may hold is checked before it is touched; one that is not
  // seen must be empty.
  lemma PackageSucceedsExactly(fs: Fs, files: seq<Named>, overwrite: bool, f: Faults)
    requires Fresh(fs)
    ensures var status, seen := ExportPackage(fs, files, overwrite, f).status, fs.output.Some? && !f.stat;
      && (status == Written <==>
           && !f.makeParent && !f.makeStaging && AllWritten(f, 0, |files|) && Installs(fs, seen, f)
           && (seen ==> overwrite && !f.readdir && fs.output.value.Directory? && OnlyExports(fs.output.value.files)))
      && (status == AlreadyExists <==> !f.makeParent && seen && !overwrite)
  {
    hide StagePackage, Installs;
    var seen := fs.output.Some? && !f.stat;
    if !f.makeParent && !f.makeStaging && (seen ==> overwrite && MayOverwrite(fs.output.value, f)) {
      var t := fs.(staging := Some(Directory(map[])));
      StagingSucceedsExactly(fs, t, files, 0, seen, f);
      StagingEnds(t, files, 0, seen, f);
    }
  }
}
