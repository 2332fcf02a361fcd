/** What a removal would touch, decided from one reading of the inventory, of Docker and of the
    project directory. Refusals and reasons are strings; the empty string means "none". */
module RemovalPlan {
  import opened Paths
  import opened Docker
  import opened Options
  import opened Strings
  import opened Discovery
  import opened RemovalPaths

  datatype Item = Item(kind: string, id: string, name: string, state: string, reason: string)

  datatype Plan = Plan(
    key: string, name: string, file: Path, directory: Path, hostDirectory: Path, hostFile: Path,
    blocked: string, items: seq<Item>, retained: seq<string>, configSha: string)

  datatype Config = Config(
    demo: bool, hostname: string, roots: seq<Path>, dataDir: Option<Path>, backupDir: Option<Path>)

  /** What the system says about the project directory: where its links lead, whether it is a
      directory, and all mount points (None when a question cannot be answered). */
  datatype Probe = Probe(resolved: Option<Path>, isDirectory: Option<bool>, mountPoints: Option<seq<Path>>)

  datatype TreeEntry = RegularFile | PlainDirectory | LinkedDirectory | Symlink | SpecialFile | Unreadable

  /** Everything one plan is computed from. */
  datatype Snapshot = Snapshot(
    files: seq<RemovalFile>, resources: Resources, images: seq<Image>, probe: Probe, tree: seq<TreeEntry>)

  const MAX_TREE_ENTRIES := 100000

  // ----- the target ------------------------------------------------------------------------------

  predicate IsKeyChar(c: char) {
    'a' <= c <= 'z' || 'A' <= c <= 'Z' || '0' <= c <= '9'
  }

  /** The project name pattern: a letter or digit, then at most 127 of letters, digits, "_", ".", "-". */
  predicate ValidKey(key: string): (valid: bool)
    ensures valid <==>
            && key != "" && |key| <= 128 && key[0] !in {'_', '.', '-'}
            && forall c :: c in key ==>
                 'a' <= c <= 'z' || 'A' <= c <= 'Z' || '0' <= c <= '9' || c in {'_', '.', '-'}
  {
    assert forall i :: 0 <= i < |key| ==> key[i] in key;
    && 1 <= |key| <= 128 && IsKeyChar(key[0])
    && forall i | 1 <= i < |key| :: IsKeyChar(key[i]) || key[i] in {'_', '.', '-'}
  }

  ghost predicate OnlyFileOf(files: seq<RemovalFile>, key: string, k: nat) {
    k < |files| && files[k].key == key && forall j :: 0 <= j < |files| && files[j].key == key ==> j == k
  }

  /** The index of the one file with this key; None when there is none or more than one. */
  method FindTarget(files: seq<RemovalFile>, key: string) returns (target: Option<nat>)
    ensures target.Some? ==> OnlyFileOf(files, key, target.value)
    ensures target.None? ==> forall k :: !OnlyFileOf(files, key, k)
  {
    target := None;
    for i := 0 to |files|
      invariant target.None? ==> forall j :: 0 <= j < i ==> files[j].key != key
      invariant target.Some? ==> target.value < i && files[target.value].key == key
      invariant target.Some? ==> forall j :: 0 <= j < i && files[j].key == key ==> j == target.value
    {
      if files[i].key == key {
        if target.Some? {
          return None;
        }
        target := Some(i);
      }
    }
  }

  // ----- the project's own containers -------------------------------------------------------------

  predicate IsManager(c: Container, hostname: string) {
    IsSelf(c, hostname) || Contains(c.image, "/compose-manager:")
  }

  /** A matching label alone does not make a container part of the project. */
  predicate ContainerBelongs(c: Container, hostname: string, mounts: seq<Mount>, hostDirectory: Path, hostFile: Path) {
    && !IsManager(c, hostname)
    && (c.workingDir.Some? ==> Host(mounts, c.workingDir.value) == hostDirectory)
    && (forall i | 0 <= i < |c.configFiles| :: Host(mounts, c.configFiles[i]) == hostFile)
  }

  /** The container is not the manager, and its labels, as far as it has them, lead to the directory and
      to nothing but the file on the host. */
  ghost predicate Belongs(c: Container, hostname: string, mounts: seq<Mount>, hostDirectory: Path, hostFile: Path) {
    && !(|hostname| >= 12 && hostname <= c.id) && !Contains(c.image, "/compose-manager:")
    && (c.workingDir.Some? ==> Host(mounts, c.workingDir.value) == hostDirectory)
    && (forall file :: file in c.configFiles ==> Host(mounts, file) == hostFile)
  }

  lemma BelongsMeans(c: Container, hostname: string, mounts: seq<Mount>, hostDirectory: Path, hostFile: Path)
    ensures ContainerBelongs(c, hostname, mounts, hostDirectory, hostFile) <==>
            Belongs(c, hostname, mounts, hostDirectory, hostFile)
  {
    hide Host, Contains;
    assert forall i :: 0 <= i < |c.configFiles| ==> c.configFiles[i] in c.configFiles;
  }

  function ContainerItem(c: Container): Item {
    Item("container", c.id, c.names, c.state, "")
  }

  function OutsideLine(m: Mount): string {
    "mount outside the directory kept: " + Render(m.source)
  }

  predicate Outside(m: Mount, hostDirectory: Path) {
    m.kind == "bind" && !PathContains(hostDirectory, m.source)
  }

  function OutsideLines(mounts: seq<Mount>, hostDirectory: Path): seq<string> {
    if mounts == [] then []
    else
      var m := mounts[|mounts| - 1];
      OutsideLines(mounts[..|mounts| - 1], hostDirectory) + if Outside(m, hostDirectory) then [OutsideLine(m)] else []
  }

  function ContainerItems(cs: seq<Container>, key: string): seq<Item> {
    if cs == [] then []
    else
      var c := cs[|cs| - 1];
      ContainerItems(cs[..|cs| - 1], key) + if c.project == key then [ContainerItem(c)] else []
  }

  function ContainerLines(cs: seq<Container>, key: string, hostDirectory: Path): seq<string> {
    if cs == [] then []
    else
      var c := cs[|cs| - 1];
      ContainerLines(cs[..|cs| - 1], key, hostDirectory)
        + if c.project == key then OutsideLines(c.mounts, hostDirectory) else []
  }

  ghost predicate AllBelong(cs: seq<Container>, key: string, hostname: string, mounts: seq<Mount>, hostDirectory: Path,
                            hostFile: Path) {
    forall c :: c in cs && c.project == key ==> Belongs(c, hostname, mounts, hostDirectory, hostFile)
  }

  method OwnContainers(cs: seq<Container>, key: string, hostname: string, mounts: seq<Mount>, hostDirectory: Path,
                       hostFile: Path)
    returns (ok: bool, items: seq<Item>, lines: seq<string>)
    ensures ok <==> AllBelong(cs, key, hostname, mounts, hostDirectory, hostFile)
    ensures ok ==> items == ContainerItems(cs, key) && lines == ContainerLines(cs, key, hostDirectory)
  {
    hide Belongs, ContainerBelongs;
    ok, items, lines := true, [], [];
    for i := 0 to |cs|
      invariant AllBelong(cs[..i], key, hostname, mounts, hostDirectory, hostFile)
      invariant items == ContainerItems(cs[..i], key) && lines == ContainerLines(cs[..i], key, hostDirectory)
    {
      var c := cs[i];
      assert cs[..i + 1][..i] == cs[..i] && c in cs;
      if c.project == key {
        BelongsMeans(c, hostname, mounts, hostDirectory, hostFile);
        if !ContainerBelongs(c, hostname, mounts, hostDirectory, hostFile) {
          ok := false;
          return;
        }
        items := items + [ContainerItem(c)];
        ghost var before := lines;
        for n := 0 to |c.mounts|
          invariant lines == before + OutsideLines(c.mounts[..n], hostDirectory)
        {
          assert c.mounts[..n + 1][..n] == c.mounts[..n];
          if Outside(c.mounts[n], hostDirectory) {
            lines := lines + [OutsideLine(c.mounts[n])];
          }
        }
        assert c.mounts[..|c.mounts|] == c.mounts;
      }
    }
    assert cs[..|cs|] == cs;
  }

  // ----- may the directory go? ----------------------------------------------------------------------

  /** `PathGuard.RemovalDirectory`: only a real directory below a root, which holds no root itself. */
  function RemovalDirectory(roots: seq<Path>, path: Path, probe: Probe): string {
    if probe.resolved.None? then "path cannot be resolved"
    else
      var resolved := probe.resolved.value;
      if !exists i | 0 <= i < |roots| :: PathContains(roots[i], resolved) then "path is outside the roots"
      else if Clean(path) != resolved then "linked directory"
      else if exists i | 0 <= i < |roots| :: PathContains(resolved, roots[i]) then "directory contains a root"
      else if probe.isDirectory.None? then "directory cannot be read"
      else if !probe.isDirectory.value then "not a directory"
      else if probe.mountPoints.None? then "mount points cannot be checked"
      else if exists i | 0 <= i < |probe.mountPoints.value| :: PathContains(resolved, probe.mountPoints.value[i]) then
        "directory contains a mount point"
      else ""
  }

  /** What an eligible directory is. */
  ghost predicate RealProjectDirectory(roots: seq<Path>, path: Path, probe: Probe) {
    && probe.resolved == Some(Clean(path)) && probe.isDirectory == Some(true) && probe.mountPoints.Some?
    && (exists root :: root in roots && PathContains(root, Clean(path)))
    && (forall root :: root in roots ==> !PathContains(Clean(path), root))
    && (forall m :: m in probe.mountPoints.value ==> !PathContains(Clean(path), m))
  }

  lemma RemovalDirectoryMeans(roots: seq<Path>, path: Path, probe: Probe)
    ensures RemovalDirectory(roots, path, probe) == "" <==> RealProjectDirectory(roots, path, probe)
  {
    hide PathContains, Clean;
  }

  predicate ScanMount(m: Mount, mounts: seq<Mount>, roots: seq<Path>) {
    exists i | 0 <= i < |roots| :: m.source == Host(mounts, roots[i]) && m.destination == roots[i]
  }

  predicate MountBlocks(c: Container, m: Mount, config: Config, mapper: Mapper, hostDirectory: Path) {
    && m.kind == "bind" && PathsOverlap(hostDirectory, m.source)
    && !(IsManager(c, config.hostname) && ScanMount(m, mapper.mounts, config.roots))
  }

  predicate BindBlocks(file: RemovalFile, source: Path, config: Config, mapper: Mapper, hostDirectory: Path) {
    && !(file.key == mapper.project && ScanRootMount(mapper.mounts, source, config.roots))
    && PathsOverlap(hostDirectory, Host(mapper.mounts, source))
  }

  /** One protected directory of the manager. */
  function ProtectBlock(blocked: string, dir: Option<Path>, mapper: Mapper, hostDirectory: Path): string {
    if dir.Some? && PathContains(hostDirectory, Host(mapper.mounts, dir.value)) then "directory contains manager data"
    else blocked
  }

  /** The verdicts of the checks overwrite each other: the last one that objects is shown. */
  function FileBlock(blocked: string, file: RemovalFile, target: RemovalFile, config: Config, mapper: Mapper,
                     hostDirectory: Path): string {
    if file.file == target.file then blocked
    else if exists i | 0 <= i < |file.binds| :: BindBlocks(file, file.binds[i], config, mapper, hostDirectory) then
      "directory used by another file: " + file.name
    else if file.uncertain && PathsOverlap(hostDirectory, Host(mapper.mounts, file.file)) then
      "another file cannot be fully read"
    else if PathContains(target.workingDir, file.file) then "directory contains another Compose file"
    else blocked
  }

  function FilesBlock(blocked: string, files: seq<RemovalFile>, target: RemovalFile, config: Config, mapper: Mapper,
                      hostDirectory: Path): string {
    if files == [] then blocked
    else
      FileBlock(FilesBlock(blocked, files[..|files| - 1], target, config, mapper, hostDirectory),
                files[|files| - 1], target, config, mapper, hostDirectory)
  }

  predicate AnyMountBlocks(c: Container, config: Config, mapper: Mapper, hostDirectory: Path) {
    exists i | 0 <= i < |c.mounts| :: MountBlocks(c, c.mounts[i], config, mapper, hostDirectory)
  }

  function MountsBlock(blocked: string, cs: seq<Container>, key: string, config: Config, mapper: Mapper,
                       hostDirectory: Path): string {
    if cs == [] then blocked
    else
      var c := cs[|cs| - 1];
      if c.project != key && AnyMountBlocks(c, config, mapper, hostDirectory) then
        "directory mounted by another container: " + c.names
      else MountsBlock(blocked, cs[..|cs| - 1], key, config, mapper, hostDirectory)
  }

  function EntryFault(e: TreeEntry): string {
    match e
    case RegularFile => ""
    case PlainDirectory => ""
    case LinkedDirectory => "directory contains links"
    case Symlink => "directory contains a symbolic link"
    case SpecialFile => "directory contains a special file"
    case Unreadable => "directory cannot be read completely"
  }

  /** The first objection of the walk over the directory's contents. */
  function TreeBlock(entries: seq<TreeEntry>): string {
    if |entries| > MAX_TREE_ENTRIES && entries[MAX_TREE_ENTRIES] != Unreadable
       && forall i | 0 <= i < MAX_TREE_ENTRIES :: EntryFault(entries[i]) == "" then
      "too many files"
    else FirstFault(entries)
  }

  function FirstFault(entries: seq<TreeEntry>): string {
    if entries == [] then ""
    else if EntryFault(entries[0]) != "" then EntryFault(entries[0])
    else FirstFault(entries[1..])
  }

  method CheckTree(entries: seq<TreeEntry>) returns (fault: string)
    ensures fault == TreeBlock(entries)
  {
    var count := 0;
    for i := 0 to |entries|
      invariant count == i <= MAX_TREE_ENTRIES
      invariant forall j :: 0 <= j < i ==> EntryFault(entries[j]) == ""
      invariant FirstFault(entries) == FirstFault(entries[i..])
    {
      assert entries[i..][1..] == entries[i + 1..];
      fault := EntryFault(entries[i]);
      if entries[i] == Unreadable {
        return;
      }
      count := count + 1;
      if count > MAX_TREE_ENTRIES {
        return "too many files";
      }
      if fault != "" {
        return;
      }
    }
    fault := "";
  }

  /** The checks before the directory's contents are read, in the source's order. */
  function OwnershipBlock(snap: Snapshot, target: RemovalFile, config: Config, mapper: Mapper,
                          hostDirectory: Path): string {
    var refused := RemovalDirectory(config.roots, target.workingDir, snap.probe);
    var protected := ProtectBlock(ProtectBlock(refused, config.dataDir, mapper, hostDirectory), config.backupDir,
                                  mapper, hostDirectory);
    var filed := FilesBlock(protected, snap.files, target, config, mapper, hostDirectory);
    MountsBlock(filed, snap.resources.containers, target.key, config, mapper, hostDirectory)
  }

  function DirectoryBlock(snap: Snapshot, target: RemovalFile, config: Config, mapper: Mapper,
                          hostDirectory: Path): string {
    var owned := OwnershipBlock(snap, target, config, mapper, hostDirectory);
    if owned == "" then TreeBlock(snap.tree) else owned
  }

  method CheckFiles(blocked0: string, files: seq<RemovalFile>, target: RemovalFile, config: Config, mapper: Mapper,
                    hostDirectory: Path)
    returns (blocked: string)
    ensures blocked == FilesBlock(blocked0, files, target, config, mapper, hostDirectory)
  {
    blocked := blocked0;
    for n := 0 to |files|
      invariant blocked == FilesBlock(blocked0, files[..n], target, config, mapper, hostDirectory)
    {
      assert files[..n + 1][..n] == files[..n];
      blocked := CheckFile(blocked, files[n], target, config, mapper, hostDirectory);
    }
    assert files[..|files|] == files;
  }

  method CheckFile(blocked0: string, file: RemovalFile, target: RemovalFile, config: Config, mapper: Mapper,
                   hostDirectory: Path)
    returns (blocked: string)
    ensures blocked == FileBlock(blocked0, file, target, config, mapper, hostDirectory)
  {
    hide BindBlocks, PathContains, PathsOverlap, Host;
    blocked := blocked0;
    if file.file != target.file {
      if PathContains(target.workingDir, file.file) {
        blocked := "directory contains another Compose file";
      }
      if file.uncertain && PathsOverlap(hostDirectory, Host(mapper.mounts, file.file)) {
        blocked := "another file cannot be fully read";
      }
      ghost var unbound := blocked;
      for i := 0 to |file.binds|
        invariant (exists j :: 0 <= j < i && BindBlocks(file, file.binds[j], config, mapper, hostDirectory)) ==>
                    blocked == "directory used by another file: " + file.name
        invariant (forall j :: 0 <= j < i ==> !BindBlocks(file, file.binds[j], config, mapper, hostDirectory)) ==>
                    blocked == unbound
      {
        if BindBlocks(file, file.binds[i], config, mapper, hostDirectory) {
          blocked := "directory used by another file: " + file.name;
        }
      }
    }
  }

  method CheckMounts(blocked0: string, cs: seq<Container>, key: string, config: Config, mapper: Mapper,
                     hostDirectory: Path)
    returns (blocked: string)
    ensures blocked == MountsBlock(blocked0, cs, key, config, mapper, hostDirectory)
  {
    blocked := blocked0;
    for n := 0 to |cs|
      invariant blocked == MountsBlock(blocked0, cs[..n], key, config, mapper, hostDirectory)
    {
      assert cs[..n + 1][..n] == cs[..n];
      if cs[n].project != key {
        blocked := CheckContainer(blocked, cs[n], config, mapper, hostDirectory);
      }
    }
    assert cs[..|cs|] == cs;
  }

  method CheckContainer(blocked0: string, c: Container, config: Config, mapper: Mapper, hostDirectory: Path)
    returns (blocked: string)
    ensures blocked == if AnyMountBlocks(c, config, mapper, hostDirectory)
                       then "directory mounted by another container: " + c.names else blocked0
  {
    blocked := blocked0;
    for i := 0 to |c.mounts|
      invariant (exists j :: 0 <= j < i && MountBlocks(c, c.mounts[j], config, mapper, hostDirectory)) ==>
                  blocked == "directory mounted by another container: " + c.names
      invariant (forall j :: 0 <= j < i ==> !MountBlocks(c, c.mounts[j], config, mapper, hostDirectory)) ==>
                  blocked == blocked0
    {
      if MountBlocks(c, c.mounts[i], config, mapper, hostDirectory) {
        blocked := "directory mounted by another container: " + c.names;
      }
    }
  }

  method CheckOwnership(snap: Snapshot, target: RemovalFile, config: Config, mapper: Mapper, hostDirectory: Path)
    returns (blocked: string)
    ensures blocked == OwnershipBlock(snap, target, config, mapper, hostDirectory)
  {
    blocked := RemovalDirectory(config.roots, target.workingDir, snap.probe);
    if config.dataDir.Some? && PathContains(hostDirectory, Host(mapper.mounts, config.dataDir.value)) {
      blocked := "directory contains manager data";
    }
    if config.backupDir.Some? && PathContains(hostDirectory, Host(mapper.mounts, config.backupDir.value)) {
      blocked := "directory contains manager data";
    }
    blocked := CheckFiles(blocked, snap.files, target, config, mapper, hostDirectory);
    blocked := CheckMounts(blocked, snap.resources.containers, target.key, config, mapper, hostDirectory);
  }

  // ----- what an unblocked directory is ----------------------------------------------------------

  ghost predicate FileLeavesAlone(file: RemovalFile, target: RemovalFile, config: Config, mapper: Mapper,
                                  hostDirectory: Path) {
    file.file != target.file ==>
      && !PathContains(target.workingDir, file.file)
      && !(file.uncertain && PathsOverlap(hostDirectory, Host(mapper.mounts, file.file)))
      && forall source :: source in file.binds && PathsOverlap(hostDirectory, Host(mapper.mounts, source)) ==>
           && file.key == mapper.project
           && exists root :: root in config.roots && Host(mapper.mounts, source) == Host(mapper.mounts, root)
  }

  ghost predicate ContainerLeavesAlone(c: Container, key: string, config: Config, mapper: Mapper, hostDirectory: Path) {
    c.project != key ==>
      forall m :: m in c.mounts && m.kind == "bind" && PathsOverlap(hostDirectory, m.source) ==>
        && ((|config.hostname| >= 12 && config.hostname <= c.id) || Contains(c.image, "/compose-manager:"))
        && exists root :: root in config.roots && m.source == Host(mapper.mounts, root) && m.destination == root
  }

  /** The project owns the directory: nothing of anybody else is in it or reaches into it. */
  ghost predicate Owned(snap: Snapshot, target: RemovalFile, config: Config, mapper: Mapper, hostDirectory: Path) {
    && RealProjectDirectory(config.roots, target.workingDir, snap.probe)
    && (config.dataDir.Some? ==> !PathContains(hostDirectory, Host(mapper.mounts, config.dataDir.value)))
    && (config.backupDir.Some? ==> !PathContains(hostDirectory, Host(mapper.mounts, config.backupDir.value)))
    && (forall file :: file in snap.files ==> FileLeavesAlone(file, target, config, mapper, hostDirectory))
    && (forall c :: c in snap.resources.containers ==>
          ContainerLeavesAlone(c, target.key, config, mapper, hostDirectory))
    && |snap.tree| <= 100000
    && (forall e :: e in snap.tree ==> e == RegularFile || e == PlainDirectory)
  }

  lemma {:induction false} FilesBlockMeans(blocked: string, files: seq<RemovalFile>, target: RemovalFile,
                                           config: Config, mapper: Mapper, hostDirectory: Path)
    ensures FilesBlock(blocked, files, target, config, mapper, hostDirectory) == "" <==>
            blocked == ""
              && forall file :: file in files ==> FileLeavesAlone(file, target, config, mapper, hostDirectory)
  {
    if files != [] {
      var rest, last := files[..|files| - 1], files[|files| - 1];
      assert files == rest + [last];
      FilesBlockMeans(blocked, rest, target, config, mapper, hostDirectory);
      FileBlockMeans(FilesBlock(blocked, rest, target, config, mapper, hostDirectory), last, target, config, mapper,
                     hostDirectory);
    }
  }

  lemma FileBlockMeans(blocked: string, file: RemovalFile, target: RemovalFile, config: Config, mapper: Mapper,
                       hostDirectory: Path)
    ensures FileBlock(blocked, file, target, config, mapper, hostDirectory) == "" <==>
            blocked == "" && FileLeavesAlone(file, target, config, mapper, hostDirectory)
  {
    if exists i :: 0 <= i < |file.binds| && BindBlocks(file, file.binds[i], config, mapper, hostDirectory) {
      var i :| 0 <= i < |file.binds| && BindBlocks(file, file.binds[i], config, mapper, hostDirectory);
      assert file.binds[i] in file.binds;
    }
  }

  lemma {:induction false} MountsBlockMeans(blocked: string, cs: seq<Container>, key: string, config: Config,
                                            mapper: Mapper, hostDirectory: Path)
    ensures MountsBlock(blocked, cs, key, config, mapper, hostDirectory) == "" <==>
            blocked == "" && forall c :: c in cs ==> ContainerLeavesAlone(c, key, config, mapper, hostDirectory)
  {
    if cs != [] {
      var rest, c := cs[..|cs| - 1], cs[|cs| - 1];
      assert cs == rest + [c];
      MountsBlockMeans(blocked, rest, key, config, mapper, hostDirectory);
      MountsMean(c, key, config, mapper, hostDirectory);
    }
  }

  lemma MountsMean(c: Container, key: string, config: Config, mapper: Mapper, hostDirectory: Path)
    ensures ContainerLeavesAlone(c, key, config, mapper, hostDirectory) <==>
            (c.project != key ==> !AnyMountBlocks(c, config, mapper, hostDirectory))
  {
    forall m | m in c.mounts && MountBlocks(c, m, config, mapper, hostDirectory)
      ensures AnyMountBlocks(c, config, mapper, hostDirectory)
    {
      var i :| 0 <= i < |c.mounts| && c.mounts[i] == m;
    }
    if AnyMountBlocks(c, config, mapper, hostDirectory) {
      var i :| 0 <= i < |c.mounts| && MountBlocks(c, c.mounts[i], config, mapper, hostDirectory);
      assert c.mounts[i] in c.mounts;
    }
  }

  lemma {:induction false} TreeBlockMeans(entries: seq<TreeEntry>)
    ensures TreeBlock(entries) == "" <==>
            |entries| <= MAX_TREE_ENTRIES && forall e :: e in entries ==> e == RegularFile || e == PlainDirectory
  {
    FirstFaultMeans(entries);
    assert forall i :: 0 <= i < |entries| ==> entries[i] in entries;
  }

  lemma {:induction false} FirstFaultMeans(entries: seq<TreeEntry>)
    ensures FirstFault(entries) == "" <==> forall e :: e in entries ==> EntryFault(e) == ""
  {
    if entries != [] { FirstFaultMeans(entries[1..]); }
  }

  /** The verdict is empty exactly when the directory belongs to the project alone. */
  lemma UnblockedMeansOwned(snap: Snapshot, target: RemovalFile, config: Config, mapper: Mapper, hostDirectory: Path)
    ensures DirectoryBlock(snap, target, config, mapper, hostDirectory) == "" <==>
            Owned(snap, target, config, mapper, hostDirectory)
  {
    var refused := RemovalDirectory(config.roots, target.workingDir, snap.probe);
    var protected := ProtectBlock(ProtectBlock(refused, config.dataDir, mapper, hostDirectory), config.backupDir,
                                  mapper, hostDirectory);
    RemovalDirectoryMeans(config.roots, target.workingDir, snap.probe);
    FilesBlockMeans(protected, snap.files, target, config, mapper, hostDirectory);
    MountsBlockMeans(FilesBlock(protected, snap.files, target, config, mapper, hostDirectory),
      snap.resources.containers, target.key, config, mapper, hostDirectory);
    TreeBlockMeans(snap.tree);
  }
}
