/**
  The UVCP data model shared by the three packers: opaque payloads, the two
  container shapes, the compressed archive, the file system the packers see,
  their errors and the status line they return.
 */
module UvcpTypes {

  datatype Option<+T> = None | Some(value: T)

  datatype Result<+T, +E> = Ok(value: T) | Err(error: E)

  /**
    An opaque payload: the weights loaded from a `.pth` file, or a search
    index serialised to bytes. No packer looks inside it.
   */
  datatype Blob = Blob(bytes: seq<bv8>)

  /** One bundled model of a multi-form container. */
  datatype Entry = Entry(modelState: Blob, indexData: Option<Blob>)

  /**
    The dictionary that is serialised into a `.uvcp` file. The single form
    has the keys "model_state" and, optionally, "index_data"; the multi form
    has the one key "models", mapping speaker IDs to entries.
   */
  datatype Container =
    | Single(modelState: Blob, indexData: Option<Blob>)
    | Multi(models: map<nat, Entry>)

  /** The compression stream an archive is written through. */
  datatype Codec = Zstd | Gzip | Lz4

  /** A `.uvcp` file: a container written through one codec. */
  datatype Archive = Archive(codec: Codec, container: Container)

  /**
    What the packers can observe of the machine: which paths exist, what
    `torch.load` yields for a weights file and what reading then
    serialising a search index yields for an index file. A loader that
    raises is `None`.
   */
  datatype Store = Store(
    onDisk: set<string>,
    loadWeights: string -> Option<Blob>,
    readIndex: string -> Option<Blob>)

  datatype PackError =
    | NoModelsGiven                                   // multi-model form, nothing uploaded
    | NoModelGiven                                    // single-model forms, nothing uploaded
    | WeightFileNotFound(path: string)
    | MatchingIndexNotFound(stem: string, path: string)
    | IndexFileNotFound(path: string)
    | Raised                                          // an exception caught by the packer

  /** What a packer returns: an error, or the destination and the archive it writes there. */
  datatype Outcome = Failed(error: PackError) | Written(dest: string, archive: Archive)

  /** Python truthiness of an optional path: present and not empty. */
  predicate Given(p: Option<string>)
  {
    p.Some? && p.value != ""
  }

  /** `x if x else None`: an empty string becomes absent. */
  function BlankAsNone(p: Option<string>): (r: Option<string>)
    ensures Given(r) == Given(p)
    ensures r.Some? ==> r == p && r.value != ""
  {
    if Given(p) then p else None
  }

  function Digit(d: nat): (c: char)
    requires d < 10
    ensures '0' <= c <= '9' && c as int - '0' as int == d
  {
    "0123456789"[d]
  }

  /** The number a string of decimal digits denotes. */
  function DigitsValue(s: string): nat
    requires forall k :: 0 <= k < |s| ==> '0' <= s[k] <= '9'
    decreases |s|
  {
    if s == [] then 0
    else DigitsValue(s[..|s| - 1]) * 10 + (s[|s| - 1] as int - '0' as int)
  }

  /** The decimal numeral of `n`, as `f"{n}"` prints it: it denotes `n`. */
  function Decimal(n: nat): (s: string)
    ensures |s| >= 1
    ensures forall k :: 0 <= k < |s| ==> '0' <= s[k] <= '9'
    ensures |s| > 1 ==> s[0] != '0'
    ensures DigitsValue(s) == n
  {
    if n < 10 then
      var s := [Digit(n)];
      assert s[..0] == [];
      s
    else
      var init := Decimal(n / 10);
      var s := init + [Digit(n % 10)];
      assert s[..|s| - 1] == init;
      s
  }

  /** The status line a packer shows for an outcome. */
  function Report(o: Outcome): string
  {
    match o
    case Written(dest, Archive(_, Multi(models))) =>
      "Successfully created UVCP file with " + Decimal(|models|) + " model(s): " + dest
    case Written(dest, _) =>
      "Successfully created UVCP file: " + dest
    case Failed(NoModelsGiven) =>
      "Error: At least one .pth file is required."
    case Failed(NoModelGiven) =>
      "Error: A .pth file is required."
    case Failed(WeightFileNotFound(p)) =>
      "Error: PTH file not found: " + p
    case Failed(MatchingIndexNotFound(stem, p)) =>
      "Error: Matching index file not found for " + stem + ".pth at path: " + p
    case Failed(IndexFileNotFound(p)) =>
      "Error: Index file not found: " + p
    case Failed(Raised) =>
      "An error occurred during UVCP creation: "
  }

  const SuccessWords := "Successfully created UVCP file"

  /** The status line starts with the success words exactly when the packer wrote an archive. */
  lemma ReportTellsSuccess(o: Outcome)
    ensures SuccessWords <= Report(o) <==> o.Written?
  {
    var r := Report(o);
    match o
    case Written(dest, Archive(_, Multi(models))) =>
      assert r == SuccessWords + (" with " + Decimal(|models|) + " model(s): " + dest);
    case Written(dest, _) =>
      assert r == SuccessWords + (": " + dest);
    case Failed(e) =>
      assert SuccessWords[0] == 'S';
      match e
      case NoModelsGiven => assert r[0] == 'E';
      case NoModelGiven => assert r[0] == 'E';
      case WeightFileNotFound(p) => assert r[0] == 'E';
      case MatchingIndexNotFound(stem, p) =>
        var head := "Error: Matching index file not found for ";
        assert r == head + (stem + ".pth at path: " + p);
        assert r[0] == head[0];
      case IndexFileNotFound(p) => assert r[0] == 'E';
      case Raised => assert r[0] == 'A';
  }

  /** A multi-form success line counts the models of the container. */
  lemma ReportCountsModels(dest: string, c: Codec, models: map<nat, Entry>)
    ensures Report(Written(dest, Archive(c, Multi(models)))) == SuccessWords + " with " + Decimal(|models|) + " model(s): " + dest
  {
  }

  /** A success line ends with the destination, and a missing-file error with the missing path. */
  lemma ReportEndsWithPath(o: Outcome)
    ensures o.Written? ==> Report(o)[|Report(o)| - |o.dest|..] == o.dest
    ensures o.Failed? && (o.error.WeightFileNotFound? || o.error.MatchingIndexNotFound? || o.error.IndexFileNotFound?)
      ==> Report(o)[|Report(o)| - |o.error.path|..] == o.error.path
  {
  }
}
