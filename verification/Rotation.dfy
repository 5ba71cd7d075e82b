/**
 Executable rotation on restart.  With autoupdate every node of an application runs from its own pair
 of files, ".name.odd" and ".name.even", in the directory of the executable; a start copies the update
 binary over the file that is not running and launches it.
 */
module Rotation {
  import opened Options
  import opened Runs
  import opened Text
  import opened Numbers

  /** `AppendNodeSequence`. */
  function NodeName(app: string, node: int): string {
    if node == 0 then app else app + "-" + Itoa(node)
  }

  function Odd(app: string, node: int): string { "." + NodeName(app, node) + ".odd" }

  function Even(app: string, node: int): string { "." + NodeName(app, node) + ".even" }

  function ExecutableNext(app: string, node: int, current: string): string {
    if current == Odd(app, node) then Even(app, node) else Odd(app, node)
  }

  predicate OwnFile(app: string, node: int, file: string) {
    file == Odd(app, node) || file == Even(app, node)
  }

  /** The file is the odd or even file of some node. */
  ghost predicate RotationFile(app: string, file: string) {
    exists node :: OwnFile(app, node, file)
  }

  lemma NodeNameInjective(app: string, m: int, n: int)
    requires NodeName(app, m) == NodeName(app, n)
    ensures m == n
  {
    if m != 0 && n != 0 {
      assert Itoa(m) == NodeName(app, m)[|app| + 1..] == NodeName(app, n)[|app| + 1..] == Itoa(n);
      ItoaInjective(m, n);
    }
  }

  /** No file belongs to two nodes, and a node's two files differ. */
  lemma FilesDisjoint(app: string, m: int, n: int, file: string)
    requires OwnFile(app, m, file) && OwnFile(app, n, file)
    ensures m == n && Odd(app, m) != Even(app, m)
  {
    assert Odd(app, m)[|Odd(app, m)| - 1] == 'd' && Odd(app, n)[|Odd(app, n)| - 1] == 'd';
    assert Even(app, m)[|Even(app, m)| - 1] == 'n' && Even(app, n)[|Even(app, n)| - 1] == 'n';
    var tail := if file == Odd(app, m) then 4 else 5;
    assert file[1..|file| - tail] == NodeName(app, m) == NodeName(app, n);
    NodeNameInjective(app, m, n);
  }

  /** The names under which an update binary is looked for. */
  function UpdateNames(app: string, arch: string, os: string): seq<string> {
    [app, app + "_" + os, app + "_" + arch + "_" + os]
  }

  /** A name whose last '_' comes after its last dot does not end in a dotted word without '_'. */
  lemma EndsApart(file: string, u: nat, suffix: string)
    requires u < |file| && file[u] == '_' && '.' !in file[u + 1..]
    requires suffix != [] && suffix[0] == '.' && '_' !in suffix
    ensures !HasSuffix(file, suffix)
  {
    if |suffix| <= |file| {
      var d := |file| - |suffix|;
      if d <= u {
        assert file[d..][u - d] == '_';
      } else {
        assert file[d] == file[u + 1..][d - u - 1];
      }
    }
  }

  lemma Suffixed(app: string, rest: string, file: string)
    requires '.' !in rest && file == app + "_" + rest
    ensures !RotationFile(app, file)
  {
    assert file[|app|] == '_' && file[|app| + 1..] == rest;
    EndsApart(file, |app|, ".odd");
    EndsApart(file, |app|, ".even");
    forall node ensures !OwnFile(app, node, file) {
      assert HasSuffix(Odd(app, node), ".odd") && HasSuffix(Even(app, node), ".even");
    }
  }

  /** Update binaries are never rotation files: GOOS and GOARCH contain no dot. */
  lemma UpdateNamesApart(app: string, arch: string, os: string, name: string)
    requires '.' !in arch && '.' !in os && name in UpdateNames(app, arch, os)
    ensures !RotationFile(app, name)
  {
    if name == app {
      forall node ensures !OwnFile(app, node, name) {
        assert |Odd(app, node)| > |app| && |Even(app, node)| > |app|;
      }
    } else if name == app + "_" + os {
      Suffixed(app, os, name);
    } else {
      assert name == app + "_" + (arch + "_" + os);
      Suffixed(app, arch + "_" + os, name);
    }
  }

  // ----- One start

  type Files = map<string, string>

  /** How copying the update binary ends: a failure may leave anything in the target file. */
  datatype Copy = Copied | Failed(left: Option<string>)

  function PutFile(files: Files, name: string, content: Option<string>): Files {
    match content
    case None => files - {name}
    case Some(c) => files[name := c]
  }

  function FirstExisting(names: seq<string>, files: Files): (found: Option<string>)
    ensures found.Some? ==> found.value in files
  {
    if names == [] then None
    else if names[0] in files then Some(names[0])
    else FirstExisting(names[1..], files)
  }

  /** The files after a start, the executable launched, and the update path passed on. */
  datatype Plan = Plan(files: Files, launched: string, update: Option<string>)

  function StartPlan(
      app: string, node: int, updates: seq<string>, files: Files, exe: string, autoupdate: bool, copy: Copy): Plan
  {
    if !autoupdate then Plan(files, exe, None)
    else
      var next := ExecutableNext(app, node, exe);
      match FirstExisting(updates, files)
      case None => Plan(files, next, None)
      case Some(path) =>
        match copy
        case Copied => Plan(files[next := files[path]], next, Some(path))
        case Failed(left) => Plan(PutFile(files, next, left), path, None)
  }

  /** `Start`, as far as executables are concerned: `exe` is the file this process runs from. */
  method Start(app: string, node: int, updates: seq<string>, files: Files, exe: string, autoupdate: bool, copy: Copy)
    returns (after: Files, nextExePath: string, autoupdateFile: Option<string>)
    ensures Plan(after, nextExePath, autoupdateFile) == StartPlan(app, node, updates, files, exe, autoupdate, copy)
  {
    after, nextExePath, autoupdateFile := files, exe, None;
    if !autoupdate {
      return;
    }
    nextExePath := ExecutableNext(app, node, exe);
    var updateOnStart, autoupdatePath, i := false, "", 0;
    while i < |updates| && !updateOnStart
      invariant 0 <= i <= |updates|
      invariant updateOnStart ==> FirstExisting(updates, files) == Some(autoupdatePath) && autoupdatePath in files
      invariant !updateOnStart ==> FirstExisting(updates, files) == FirstExisting(updates[i..], files)
      decreases |updates| - i, !updateOnStart
    {
      autoupdatePath := updates[i];
      if autoupdatePath in files {
        updateOnStart := true;
      } else {
        i := i + 1;
      }
    }
    if updateOnStart {
      var content := files[autoupdatePath];
      after := after - {nextExePath};
      match copy {
        case Copied =>
          after := after[nextExePath := content];
          autoupdateFile := Some(autoupdatePath);
        case Failed(left) =>
          after := PutFile(after, nextExePath, left);
          nextExePath := autoupdatePath;
      }
    }
  }

  /** A start leaves every file alone but the one file of its own pair that it does not run from. */
  lemma StartTouchesOneFile(
      app: string, node: int, updates: seq<string>, files: Files, exe: string, autoupdate: bool, copy: Copy,
      file: string)
    ensures var after := StartPlan(app, node, updates, files, exe, autoupdate, copy).files;
            file != ExecutableNext(app, node, exe) ==>
              (file in after <==> file in files) && (file in files ==> after[file] == files[file])
    ensures exe != ExecutableNext(app, node, exe)
  {
    assert Odd(app, node)[|Odd(app, node)| - 1] == 'd' && Even(app, node)[|Even(app, node)| - 1] == 'n';
  }

  lemma {:induction false} FirstExistingAt(names: seq<string>, files: Files, k: nat)
    requires k < |names| && names[k] in files && forall j :: 0 <= j < k ==> names[j] !in files
    ensures FirstExisting(names, files) == Some(names[k])
  {
    if k > 0 {
      FirstExistingAt(names[1..], files, k - 1);
    }
  }

  lemma {:induction false} NoneExists(names: seq<string>, files: Files)
    requires forall name :: name in names ==> name !in files
    ensures FirstExisting(names, files) == None
  {
    if names != [] {
      assert names[0] in names;
      NoneExists(names[1..], files);
    }
  }

  /** The files of a pair alternate; a process started from any other file goes on from the odd one. */
  lemma PairAlternates(app: string, node: int, exe: string)
    ensures ExecutableNext(app, node, Odd(app, node)) == Even(app, node)
    ensures ExecutableNext(app, node, Even(app, node)) == Odd(app, node)
    ensures !OwnFile(app, node, exe) ==> ExecutableNext(app, node, exe) == Odd(app, node)
    ensures ExecutableNext(app, node, exe) != exe
  {
    assert Odd(app, node)[|Odd(app, node)| - 1] == 'd' && Even(app, node)[|Even(app, node)| - 1] == 'n';
  }

  /** Node zero has the plain name of the application, any other its number after a dash. */
  lemma NodeFiles(app: string, node: int)
    ensures Odd(app, 0) == "." + app + ".odd" && Even(app, 0) == "." + app + ".even"
    ensures node != 0 ==> Odd(app, node) == "." + app + "-" + Itoa(node) + ".odd"
    ensures node != 0 ==> Even(app, node) == "." + app + "-" + Itoa(node) + ".even"
  {
    assert "." + (app + "-" + Itoa(node)) == "." + app + "-" + Itoa(node);
  }

  /**
   A start with an update: of the update binaries looked for, the first that exists is copied over the
   file of the pair that is not running, that file is launched with exactly the binary's content, and
   the binary's path is passed on; if the copy fails, the binary itself is launched and nothing passed on.
   */
  lemma UpdateIsLaunched(
      app: string, node: int, updates: seq<string>, files: Files, exe: string, copy: Copy, k: nat)
    requires k < |updates| && updates[k] in files && forall j :: 0 <= j < k ==> updates[j] !in files
    ensures var plan := StartPlan(app, node, updates, files, exe, true, copy);
            match copy
            case Copied =>
              && OwnFile(app, node, plan.launched) && plan.launched != exe
              && plan.launched in plan.files && plan.files[plan.launched] == files[updates[k]]
              && plan.update == Some(updates[k])
            case Failed(_) => plan.launched == updates[k] && plan.update == None
  {
    FirstExistingAt(updates, files, k);
    PairAlternates(app, node, exe);
  }

  /**
   A start without an update binary launches the file of the pair that is not running, and one without
   autoupdate the file it runs from; neither changes a file nor passes anything on.
   */
  lemma NothingIsUpdated(
      app: string, node: int, updates: seq<string>, files: Files, exe: string, autoupdate: bool, copy: Copy)
    requires autoupdate ==> forall name :: name in updates ==> name !in files
    ensures var plan := StartPlan(app, node, updates, files, exe, autoupdate, copy);
            && plan.files == files && plan.update == None
            && (if autoupdate then OwnFile(app, node, plan.launched) && plan.launched != exe else plan.launched == exe)
  {
    if autoupdate {
      NoneExists(updates, files);
      PairAlternates(app, node, exe);
    }
  }

  // ----- Any sequence of starts of any nodes

  /** `running` maps a node to the file its process runs from. */
  datatype System = System(files: Files, running: map<int, string>)

  ghost predicate InUse(s: System, file: string) {
    exists node :: node in s.running && s.running[node] == file
  }

  datatype Action =
    | Begin(node: int, exe: string)    // a node started by hand
    | Restart(node: int, autoupdate: bool, copy: Copy, launched: bool)

  datatype Site = Site(app: string, arch: string, os: string)

  ghost function Next(site: Site, s: System, a: Action): Option<System> {
    match a
    case Begin(node, exe) =>
      if RotationFile(site.app, exe) then None else Some(s.(running := s.running[node := exe]))
    case Restart(node, autoupdate, copy, launched) =>
      if node !in s.running then None
      else
        var updates := UpdateNames(site.app, site.arch, site.os);
        var plan := StartPlan(site.app, node, updates, s.files, s.running[node], autoupdate, copy);
        Some(System(plan.files, if launched then s.running[node := plan.launched] else s.running))
  }

  ghost function Machine(site: Site): (System, Action) -> Option<System> {
    (s, a) => Next(site, s, a)
  }

  /** Every process runs from a file of its own pair, or from no rotation file at all. */
  ghost predicate Inv(site: Site, s: System) {
    forall node :: node in s.running && RotationFile(site.app, s.running[node]) ==>
                     OwnFile(site.app, node, s.running[node])
  }

  lemma {:induction false} FirstExistingIsListed(names: seq<string>, files: Files)
    requires FirstExisting(names, files).Some?
    ensures FirstExisting(names, files).value in names
  {
    if names[0] !in files {
      FirstExistingIsListed(names[1..], files);
    }
  }

  lemma LaunchedFile(site: Site, node: int, files: Files, exe: string, autoupdate: bool, copy: Copy)
    requires '.' !in site.arch && '.' !in site.os
    requires RotationFile(site.app, exe) ==> OwnFile(site.app, node, exe)
    ensures var updates := UpdateNames(site.app, site.arch, site.os);
            var plan := StartPlan(site.app, node, updates, files, exe, autoupdate, copy);
            RotationFile(site.app, plan.launched) ==> OwnFile(site.app, node, plan.launched)
  {
    var updates := UpdateNames(site.app, site.arch, site.os);
    if FirstExisting(updates, files).Some? {
      FirstExistingIsListed(updates, files);
      UpdateNamesApart(site.app, site.arch, site.os, FirstExisting(updates, files).value);
    }
  }

  lemma {:induction false} RunKeepsInv(site: Site, s: System, acts: seq<Action>)
    requires '.' !in site.arch && '.' !in site.os
    requires Inv(site, s) && Exec(Machine(site), s, acts).Some?
    ensures Inv(site, Exec(Machine(site), s, acts).value)
    decreases |acts|
  {
    if acts != [] {
      var a, t := acts[0], Next(site, s, acts[0]).value;
      if a.Restart? {
        LaunchedFile(site, a.node, s.files, s.running[a.node], a.autoupdate, a.copy);
      }
      RunKeepsInv(site, t, acts[1..]);
    }
  }

  lemma NotTheNextFile(site: Site, s: System, node: int, file: string)
    requires Inv(site, s) && node in s.running
    requires InUse(s, file) || exists m :: m != node && OwnFile(site.app, m, file)
    ensures file != ExecutableNext(site.app, node, s.running[node])
  {
    var next := ExecutableNext(site.app, node, s.running[node]);
    assert OwnFile(site.app, node, next) && RotationFile(site.app, next);
    StartTouchesOneFile(site.app, node, [], s.files, s.running[node], false, Copied, "");
    if InUse(s, file) {
      var m :| m in s.running && s.running[m] == file;
      if OwnFile(site.app, m, next) {
        FilesDisjoint(site.app, m, node, next);
      }
    } else {
      var m :| m != node && OwnFile(site.app, m, file);
      if OwnFile(site.app, m, next) {
        FilesDisjoint(site.app, m, node, next);
      }
    }
  }

  /**
   Rotation is safe.  After any sequence of starts of any nodes of one application, a further start
   neither removes nor changes the file that any process, its own or another node's, runs from, nor
   any other node's odd or even file.
   */
  lemma RotationSafe(site: Site, files: Files, acts: seq<Action>, a: Action, file: string)
    requires '.' !in site.arch && '.' !in site.os
    requires Exec(Machine(site), System(files, map[]), acts).Some?
    requires var s := Exec(Machine(site), System(files, map[]), acts).value;
             && a.Restart? && Next(site, s, a).Some?
             && (InUse(s, file) || exists m :: m != a.node && OwnFile(site.app, m, file))
    ensures var s := Exec(Machine(site), System(files, map[]), acts).value;
            var t := Next(site, s, a).value;
            (file in t.files <==> file in s.files) && (file in s.files ==> t.files[file] == s.files[file])
  {
    RunKeepsInv(site, System(files, map[]), acts);
    var s := Exec(Machine(site), System(files, map[]), acts).value;
    NotTheNextFile(site, s, a.node, file);
    var updates := UpdateNames(site.app, site.arch, site.os);
    StartTouchesOneFile(site.app, a.node, updates, s.files, s.running[a.node], a.autoupdate, a.copy, file);
  }

  /** The content of the update binary: the plain name goes before the one for the system or the platform. */
  function UpdateContent(site: Site, files: Files): Option<string> {
    var forSystem, forPlatform := site.app + "_" + site.os, site.app + "_" + site.arch + "_" + site.os;
    if site.app in files then Some(files[site.app])
    else if forSystem in files then Some(files[forSystem])
    else if forPlatform in files then Some(files[forPlatform])
    else None
  }

  lemma UpdateIsCopied(site: Site, node: int, files: Files, exe: string)
    requires UpdateContent(site, files).Some?
    ensures var plan := StartPlan(site.app, node, UpdateNames(site.app, site.arch, site.os), files, exe, true, Copied);
            && plan.launched in plan.files && Some(plan.files[plan.launched]) == UpdateContent(site, files)
  {
    var updates := UpdateNames(site.app, site.arch, site.os);
    var k := if updates[0] in files then 0 else if updates[1] in files then 1 else 2;
    UpdateIsLaunched(site.app, node, updates, files, exe, Copied, k);
  }

  /** The actions of the other nodes. */
  predicate Elsewhere(a: Action, node: int) { a.node != node }

  ghost predicate RunsOn(s: System, node: int, content: string) {
    node in s.running && s.running[node] in s.files && s.files[s.running[node]] == content
  }

  lemma {:induction false} OthersLeaveRunning(site: Site, s: System, more: seq<Action>, node: int, content: string)
    requires '.' !in site.arch && '.' !in site.os && Inv(site, s) && RunsOn(s, node, content)
    requires (forall a :: a in more ==> Elsewhere(a, node)) && Exec(Machine(site), s, more).Some?
    ensures RunsOn(Exec(Machine(site), s, more).value, node, content)
    decreases |more|
  {
    if more != [] {
      var a, t := more[0], Next(site, s, more[0]).value;
      assert a in more;
      assert [a][1..] == [] && Exec(Machine(site), t, []) == Some(t);
      RunKeepsInv(site, s, [a]);
      if a.Restart? {
        assert InUse(s, s.running[node]);
        NotTheNextFile(site, s, a.node, s.running[node]);
        var updates := UpdateNames(site.app, site.arch, site.os);
        StartTouchesOneFile(
          site.app, a.node, updates, s.files, s.running[a.node], a.autoupdate, a.copy, s.running[node]);
      }
      OthersLeaveRunning(site, t, more[1..], node, content);
    }
  }

  /**
   A restarted node runs the update.  After any starts of any nodes, a restart with autoupdate whose
   copy succeeds makes the node run exactly the update binary found, and whatever other nodes are
   started or restarted afterwards, it goes on running that.
   */
  lemma RestartRunsUpdate(site: Site, files: Files, acts: seq<Action>, node: int, more: seq<Action>)
    requires '.' !in site.arch && '.' !in site.os
    requires Exec(Machine(site), System(files, map[]), acts).Some?
    requires var s := Exec(Machine(site), System(files, map[]), acts).value;
             && node in s.running && UpdateContent(site, s.files).Some?
             && Exec(Machine(site), Next(site, s, Restart(node, true, Copied, true)).value, more).Some?
    requires forall a :: a in more ==> Elsewhere(a, node)
    ensures var s := Exec(Machine(site), System(files, map[]), acts).value;
            var t := Exec(Machine(site), Next(site, s, Restart(node, true, Copied, true)).value, more).value;
            RunsOn(t, node, UpdateContent(site, s.files).value)
  {
    RunKeepsInv(site, System(files, map[]), acts);
    var s := Exec(Machine(site), System(files, map[]), acts).value;
    var a := Restart(node, true, Copied, true);
    var t := Next(site, s, a).value;
    UpdateIsCopied(site, node, s.files, s.running[node]);
    assert [a][1..] == [] && Exec(Machine(site), t, []) == Some(t);
    RunKeepsInv(site, s, [a]);
    OthersLeaveRunning(site, t, more, node, UpdateContent(site, s.files).value);
  }
}
