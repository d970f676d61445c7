/** The workspace file store as the plugin sees it: file records, a
    `readdir` tree, archive entries, and the fixed paths and names the
    plugin uses. */
module Workspace {

  /** A file record as returned by the workspace's file listing. */
  datatype FileInfo = FileInfo(path: string, isDirectory: bool)

  /** One key of a `readdir` result. The key is a workspace path whose last
      segment is the entry's name; a directory carries what `readdir`
      returns when it is listed in turn. */
  datatype Entry =
    | FileEntry(key: string)
    | DirEntry(key: string, listing: seq<Entry>)

  /** An entry of a zip archive: its name inside the archive, whether it is
      a directory entry, and its text content. */
  datatype ZipEntry = ZipEntry(name: string, isDir: bool, content: string)

  /** Files mounted from the browser's storage carry this path prefix. */
  const BrowserPrefix: string := "browser/"

  /** Where project discovery starts. */
  const ProjectsRoot: string := "browser/aztec"

  /** A directory holding a key that ends with this name is a project. */
  const ManifestName: string := "Nargo.toml"
}
