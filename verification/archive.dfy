/** Packaging a project for the build service and installing what comes
    back: the build-input filter, the workspace-path to archive-name
    mapping, the archive itself, and the paths returned entries are
    written to. */
module Archive {
  import opened Wrappers
  import opened JsStrings
  import opened Workspace

  /** `path.startsWith(`${project}/target`)`: a raw prefix test, so it also
      matches `<project>/target2/…` or `<project>/targets.nr`. */
  predicate IsBuildOutput(path: string, project: string) {
    StartsWith(path, project + "/target")
  }

  /** The project files sent to the build: everything not build output, in
      listing order. */
  function BuildInput(files: seq<FileInfo>, project: string): (kept: seq<FileInfo>)
    ensures |kept| <= |files|
    ensures forall f :: f in kept <==> f in files && !IsBuildOutput(f.path, project)
  {
    if files == [] then []
    else (if IsBuildOutput(files[0].path, project) then [] else [files[0]])
         + BuildInput(files[1..], project)
  }

  /** The filter keeps listing order: it distributes over concatenation. */
  lemma {:induction false} BuildInputAppend(a: seq<FileInfo>, b: seq<FileInfo>, project: string)
    ensures BuildInput(a + b, project) == BuildInput(a, project) + BuildInput(b, project)
  {
    if a == [] {
      assert a + b == b;
    } else {
      assert (a + b)[1..] == a[1..] + b;
      BuildInputAppend(a[1..], b, project);
    }
  }

  /** The name a workspace file gets in the archive: the first `browser/`
      removed, then the first `<project>/` removed. */
  function ArchiveName(path: string, project: string): string {
    RemoveFirst(RemoveFirst(path, BrowserPrefix), project + "/")
  }

  /** The archive built from `files`: one entry per non-directory file, in
      order, holding what `read` returns for it; the first failing read
      fails the whole archive. */
  function GenerateZip(files: seq<FileInfo>, project: string, read: string -> Result<string, string>)
    : (zip: Result<seq<ZipEntry>, string>)
    ensures zip.Ok? ==> |zip.value| <= |files|
    ensures zip.Ok? ==> forall e :: e in zip.value ==> !e.isDir
  {
    if files == [] then Ok([])
    else if files[0].isDirectory then GenerateZip(files[1..], project, read)
    else match read(files[0].path)
      case Err(msg) => Err(msg)
      case Ok(content) =>
        match GenerateZip(files[1..], project, read)
        case Err(msg) => Err(msg)
        case Ok(rest) => Ok([ZipEntry(ArchiveName(files[0].path, project), false, content)] + rest)
  }

  /** The entry a readable file contributes. */
  predicate EntryOf(f: FileInfo, project: string, read: string -> Result<string, string>, e: ZipEntry) {
    && !f.isDirectory
    && read(f.path).Ok?
    && e == ZipEntry(ArchiveName(f.path, project), false, read(f.path).value)
  }

  /** The archive fails exactly when some non-directory file cannot be read,
      and otherwise holds exactly the entries of the non-directory files. */
  lemma {:induction false} GenerateZipContents(files: seq<FileInfo>, project: string, read: string -> Result<string, string>)
    ensures GenerateZip(files, project, read).Err?
            <==> exists f :: f in files && !f.isDirectory && read(f.path).Err?
    ensures GenerateZip(files, project, read).Ok? ==>
            forall e :: e in GenerateZip(files, project, read).value
                        <==> exists f :: f in files && EntryOf(f, project, read, e)
  {
    if files != [] {
      var f0 := files[0];
      var tail := files[1..];
      GenerateZipContents(tail, project, read);
      assert forall f :: f in files <==> f == f0 || f in tail;
      var zip := GenerateZip(files, project, read);
      if !f0.isDirectory && read(f0.path).Ok? && GenerateZip(tail, project, read).Ok? {
        var head := ZipEntry(ArchiveName(f0.path, project), false, read(f0.path).value);
        assert zip.value == [head] + GenerateZip(tail, project, read).value;
        forall e
          ensures e in zip.value <==> exists f :: f in files && EntryOf(f, project, read, e)
        {
          if e == head {
            assert EntryOf(f0, project, read, e);
          }
          if exists f :: f in files && EntryOf(f, project, read, e) {
            var f :| f in files && EntryOf(f, project, read, e);
            if f != f0 {
              assert f in tail;
            }
          }
        }
      }
    }
  }

  /** The archive sent for a project: exactly the readable non-directory
      files outside `<project>/target…`, under their archive names. */
  lemma BuildArchiveContents(files: seq<FileInfo>, project: string, read: string -> Result<string, string>, e: ZipEntry)
    requires GenerateZip(BuildInput(files, project), project, read).Ok?
    ensures e in GenerateZip(BuildInput(files, project), project, read).value
            <==> exists f :: f in files && !IsBuildOutput(f.path, project) && EntryOf(f, project, read, e)
  {
    GenerateZipContents(BuildInput(files, project), project, read);
  }

  /** Anything that merely starts with `<project>/target` is left out of
      the build, including siblings of the `target` directory. */
  lemma SiblingsOfTargetExcluded(project: string, rest: string, isDirectory: bool)
    ensures BuildInput([FileInfo(project + "/target" + rest, isDirectory)], project) == []
  {
    var p := project + "/target" + rest;
    assert p[..|project + "/target"|] == project + "/target";
  }

  /** Where CompileDeployCard writes a returned entry. */
  function OutputRoot(project: string): string {
    BrowserPrefix + project + "/"
  }

  /** Where the legacy page writes a returned entry: under `target/`. */
  function LegacyOutputRoot(project: string): string {
    BrowserPrefix + project + "/target/"
  }

  /** The workspace writes for a returned archive: one `(path, content)`
      per non-directory entry, in archive order, under `root`. */
  function Writes(root: string, entries: seq<ZipEntry>): (ws: seq<(string, string)>)
    ensures |ws| <= |entries|
    ensures forall w :: w in ws <==> exists e :: e in entries && !e.isDir && w == (root + e.name, e.content)
  {
    if entries == [] then []
    else (if entries[0].isDir then [] else [(root + entries[0].name, entries[0].content)])
         + Writes(root, entries[1..])
  }

  /** Writing an entry and naming the written file for the archive again
      gives back the entry's name. */
  lemma InstallThenName(project: string, name: string)
    ensures ArchiveName(OutputRoot(project) + name, project) == name
  {
    var full := OutputRoot(project) + name;
    assert full == BrowserPrefix + (project + "/" + name);
    assert full[..|BrowserPrefix|] == BrowserPrefix;
    RemoveFirstOfPrefix(full, BrowserPrefix);
    var inner := project + "/" + name;
    assert full[|BrowserPrefix|..] == inner;
    assert inner[..|project + "/"|] == project + "/";
    RemoveFirstOfPrefix(inner, project + "/");
    assert inner[|project + "/"|..] == name;
  }

  /** A workspace file of the project names into the archive and installs
      back to the same path. */
  lemma NameThenInstall(project: string, path: string)
    requires StartsWith(path, OutputRoot(project))
    ensures OutputRoot(project) + ArchiveName(path, project) == path
  {
    var name := path[|OutputRoot(project)|..];
    assert path == OutputRoot(project) + name;
    InstallThenName(project, name);
  }

  /** The legacy page's output lands one level deeper: its archive name
      gains a `target/` prefix. */
  lemma LegacyInstallName(project: string, name: string)
    ensures ArchiveName(LegacyOutputRoot(project) + name, project) == "target/" + name
  {
    assert LegacyOutputRoot(project) + name == OutputRoot(project) + ("target/" + name);
    InstallThenName(project, "target/" + name);
  }
}
