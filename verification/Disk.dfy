/** The store's directory, changed one I/O operation at a time. Any operation may fail. */
module Disks {
  import opened Bytes
  import opened Harness

  type Name = string

  datatype ManifestEntry = ManifestEntry(name: Name, qmdlSizeBytes: nat)

  datatype Path = QmdlFile(name: Name) | AnalysisFile(name: Name) | Manifest | ManifestTmp

  datatype File =
    | Recording(bytes: seq<byte>)
    | Report(rows: seq<AnalysisRow>)
    | Toml(entries: seq<ManifestEntry>)
    | Unreadable

  type Files = map<Path, File>

  datatype Op =
    | Create(path: Path)
    | Truncate(path: Path)
    | Append(path: Path, bytes: seq<byte>)
    | AppendRow(path: Path, row: AnalysisRow)
    | Save(path: Path, entries: seq<ManifestEntry>)
    | Rename(path: Path, target: Path)
    | Remove(path: Path)

  function Empty(path: Path): File {
    match path
    case QmdlFile(_) => Recording([])
    case AnalysisFile(_) => Report([])
    case _ => Unreadable
  }

  /** Truncating and renaming need the file to exist; removing does not, as a missing file is ignored. */
  predicate Applicable(files: Files, op: Op) {
    op.Truncate? || op.Rename? ==> op.path in files
  }

  function Appended(files: Files, path: Path, bytes: seq<byte>): Files {
    if path in files && files[path].Recording? then files[path := Recording(files[path].bytes + bytes)] else files
  }

  function AppendedRows(files: Files, path: Path, rows: seq<AnalysisRow>): Files {
    if path in files && files[path].Report? then files[path := Report(files[path].rows + rows)] else files
  }

  function Apply(files: Files, op: Op): Files {
    match op
    case Create(path) => files[path := Empty(path)]
    case Truncate(path) => files[path := Empty(path)]
    case Append(path, bytes) => Appended(files, path, bytes)
    case AppendRow(path, row) => AppendedRows(files, path, [row])
    case Save(path, entries) => files[path := Toml(entries)]
    case Rename(path, target) => if path in files then (files - {path})[target := files[path]] else files
    case Remove(path) => files - {path}
  }

  /** What a failed operation leaves: a write may stop after some bytes; a cut-off row is no row. */
  function Broken(files: Files, op: Op, torn: nat): Files {
    match op
    case Append(path, bytes) => Appended(files, path, Torn(bytes, torn))
    case Save(path, _) => files[path := Unreadable]
    case _ => files
  }

  function Torn(data: seq<byte>, torn: nat): seq<byte> {
    if torn < |data| then data[..torn] else data
  }

  class Disk {
    /** Whether operation number k succeeds, and how far a failing write gets. A crash is a last failure. */
    const works: nat -> bool
    const torn: nat -> nat
    var files: Files
    var step: nat

    ghost predicate NeverFails() {
      forall k :: works(k)
    }

    constructor (files: Files, works: nat -> bool, torn: nat -> nat)
      ensures this.files == files && this.works == works && this.torn == torn && step == 0
    {
      this.files := files;
      this.works := works;
      this.torn := torn;
      step := 0;
    }

    method Perform(op: Op) returns (ok: bool)
      modifies this
      ensures ok <==> works(old(step)) && Applicable(old(files), op)
      ensures files == if ok then Apply(old(files), op) else Broken(old(files), op, torn(old(step)))
      ensures step == old(step) + 1
    {
      ok := works(step) && Applicable(files, op);
      files := if ok then Apply(files, op) else Broken(files, op, torn(step));
      step := step + 1;
    }
  }

  lemma AppendedTwice(files: Files, path: Path, a: seq<byte>, b: seq<byte>)
    ensures Appended(Appended(files, path, a), path, b) == Appended(files, path, a + b)
  {
    if path in files && files[path].Recording? {
      assert files[path].bytes + a + b == files[path].bytes + (a + b);
    }
  }

  lemma AppendedNothing(files: Files, path: Path)
    ensures Appended(files, path, []) == files
  {
    if path in files && files[path].Recording? {
      assert files[path].bytes + [] == files[path].bytes;
    }
  }

  lemma AppendedRowsTwice(files: Files, path: Path, a: seq<AnalysisRow>, b: seq<AnalysisRow>)
    ensures AppendedRows(AppendedRows(files, path, a), path, b) == AppendedRows(files, path, a + b)
  {
    if path in files && files[path].Report? {
      assert files[path].rows + a + b == files[path].rows + (a + b);
    }
  }

  lemma AppendedNoRows(files: Files, path: Path)
    ensures AppendedRows(files, path, []) == files
  {
    if path in files && files[path].Report? {
      assert files[path].rows + [] == files[path].rows;
    }
  }
}
