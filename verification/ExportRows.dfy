// Rows of the exports table, as the maintenance scripts see them.
module ExportRows {
  import opened Wrappers

  // A SHA-256 digest. Two files have the same digest exactly if they have the
  // same bytes; nothing else about the hash is used.
  type Sha = string

  type Path = string

  datatype Row = Row(
    succeeded: bool,          // status = 'succeeded'
    document: string,
    path: Path,               // file_path
    sha: Option<Sha>,         // content_sha256
    bytes: Option<nat>,       // byte_count
    verifiedAt: Option<int>,  // last_verified_at
    stale: Option<string>)    // stale_reason

  const SENTINEL: string := "unrecoverable://"

  predicate IsSentinel(path: Path) {
    |path| >= |SENTINEL| && path[..|SENTINEL|] == SENTINEL
  }

  // The row keeps its blob alive (scripts/reap_blob_store.py:99-112).
  predicate Serviceable(row: Row) {
    row.succeeded && row.sha.Some? && row.stale.None? && !IsSentinel(row.path)
  }

  predicate IsAbsolute(p: Path) {
    p != [] && p[0] == '/'
  }

  // Relative paths are stored relative to the repository root.
  function ResolveAt(root: Path, p: Path): Path {
    if IsAbsolute(p) then p else root + "/" + p
  }

  // A truthy stale_reason.
  predicate IsStale(row: Row) {
    row.stale.Some? && row.stale.value != ""
  }
}
