/** The files directory: content stored under its digest, outside any transaction. */
module FileStore {
  import opened HubTypes
  import opened Tables

  /** Every stored file is named by the digest of its content. */
  ghost predicate Integrity(cfg: Config, files: map<FileId, Bytes>) {
    forall f | f in files :: cfg.digest(files[f]) == f
  }

  ghost predicate Stored(files: map<FileId, Bytes>, rows: seq<OpFile>) {
    forall i | 0 <= i < |rows| :: rows[i].fileId in files
  }

  ghost predicate FilesGrow(before: map<FileId, Bytes>, after: map<FileId, Bytes>) {
    forall f | f in before :: f in after && after[f] == before[f]
  }

  /** Identical content is stored once. */
  lemma StoredOnce(cfg: Config, files: map<FileId, Bytes>, f: FileId, g: FileId)
    requires Integrity(cfg, files) && f in files && g in files && files[f] == files[g]
    ensures f == g
  {
    assert cfg.digest(files[f]) == f && cfg.digest(files[g]) == g;
  }

  /** What is stored under the digest of a content is that content, if nothing else has
      the same digest. */
  lemma StoredIsPosted(cfg: Config, files: map<FileId, Bytes>, content: Bytes)
    requires Integrity(cfg, files) && cfg.digest(content) in files
    requires forall other | cfg.digest(other) == cfg.digest(content) :: other == content
    ensures files[cfg.digest(content)] == content
  {
    assert cfg.digest(files[cfg.digest(content)]) == cfg.digest(content);
  }

  /** A file is stored under the digest of the content, and it is that content if nothing
      else has the same digest. */
  ghost predicate Keeps(cfg: Config, files: map<FileId, Bytes>, content: Bytes) {
    && cfg.digest(content) in files
    && ((forall other | cfg.digest(other) == cfg.digest(content) :: other == content) ==>
          files[cfg.digest(content)] == content)
  }

  lemma StoredIsKept(cfg: Config, files: map<FileId, Bytes>, content: Bytes)
    requires Integrity(cfg, files) && cfg.digest(content) in files
    ensures Keeps(cfg, files, content)
  {
    if forall other | cfg.digest(other) == cfg.digest(content) :: other == content {
      StoredIsPosted(cfg, files, content);
    }
  }

  lemma StillStored(before: map<FileId, Bytes>, after: map<FileId, Bytes>, rows: seq<OpFile>)
    requires Stored(before, rows) && FilesGrow(before, after)
    ensures Stored(after, rows)
  {
  }

  lemma FilesGrowTransitive(a: map<FileId, Bytes>, b: map<FileId, Bytes>, c: map<FileId, Bytes>)
    requires FilesGrow(a, b) && FilesGrow(b, c)
    ensures FilesGrow(a, c)
  {
  }

  lemma FilesGrowReflexive(a: map<FileId, Bytes>)
    ensures FilesGrow(a, a)
  {
  }

  /** A file is persisted only when no file of that name exists. */
  function Persist(cfg: Config, files: map<FileId, Bytes>, w: Write): map<FileId, Bytes> {
    if w.PersistFile? && cfg.digest(w.content) !in files then files[cfg.digest(w.content) := w.content]
    else files
  }

  /** The files a whole script persists. */
  function PersistAll(cfg: Config, files: map<FileId, Bytes>, script: seq<Write>): map<FileId, Bytes>
    decreases |script|
  {
    if script == [] then files else PersistAll(cfg, Persist(cfg, files, script[0]), script[1..])
  }

  lemma PersistGrows(cfg: Config, files: map<FileId, Bytes>, w: Write)
    requires Integrity(cfg, files)
    ensures Integrity(cfg, Persist(cfg, files, w)) && FilesGrow(files, Persist(cfg, files, w))
    ensures Persist(cfg, files, w).Keys
         == files.Keys + (if w.PersistFile? then {cfg.digest(w.content)} else {})
  {
  }
}
