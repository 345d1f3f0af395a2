/**
  The single-model packers (the gzip and the lz4 variant): one weights file
  and an optional index file become a single-form container. Both variants
  validate and name their output identically; they differ only in the codec
  the archive is written through, so the reference behaviour is stated once
  here, with the codec as a parameter.
 */
module SinglePacker {
  import opened UvcpTypes
  import opened PathNames

  /** The index part of the container: absent, read, or the error that stops the packer. */
  function IndexPart(st: Store, index: Option<string>): (r: Result<Option<Blob>, PackError>)
  {
    if !Given(index) then Ok(None)
    else if index.value !in st.onDisk then Err(IndexFileNotFound(index.value))
    else match st.readIndex(index.value)
      case None => Err(Raised)
      case Some(b) => Ok(Some(b))
  }

  /** The destination: the output path as given, else `<stem>.uvcp` in the logs directory. */
  function SingleDestination(pth: string, out: Option<string>, logsDir: string): string
  {
    if Given(out) then out.value else Join(logsDir, Stem(pth) + ".uvcp")
  }

  /**
    What `create_uvcp` of a single-model packer does: the weights file must
    exist and load; a given index file must then exist and load too; only
    then is the archive written.
   */
  function PackSingle(st: Store, codec: Codec, pth: string, index: Option<string>, out: Option<string>, logsDir: string): Outcome
  {
    if pth !in st.onDisk then Failed(WeightFileNotFound(pth))
    else match st.loadWeights(pth)
      case None => Failed(Raised)
      case Some(weights) =>
        match IndexPart(st, index)
        case Err(e) => Failed(e)
        case Ok(indexData) => Written(SingleDestination(pth, out, logsDir), Archive(codec, Single(weights, indexData)))
  }

  /**
    The packer writes exactly when the weights file exists and loads and,
    if an index path is given, that file exists and loads as well.
   */
  lemma PackSingleSucceedsIff(st: Store, codec: Codec, pth: string, index: Option<string>, out: Option<string>, logsDir: string)
    ensures PackSingle(st, codec, pth, index, out, logsDir).Written?
      <==> && pth in st.onDisk && st.loadWeights(pth).Some?
           && (Given(index) ==> index.value in st.onDisk && st.readIndex(index.value).Some?)
  {
  }

  /**
    Validation order: a missing weights file is reported first, whatever the
    index; then a missing index file; and an index path that is blank is
    never looked at.
   */
  lemma PackSingleErrorOrder(st: Store, codec: Codec, pth: string, index: Option<string>, out: Option<string>, logsDir: string)
    ensures pth !in st.onDisk ==> PackSingle(st, codec, pth, index, out, logsDir) == Failed(WeightFileNotFound(pth))
    ensures pth in st.onDisk && st.loadWeights(pth).Some? && Given(index) && index.value !in st.onDisk
      ==> PackSingle(st, codec, pth, index, out, logsDir) == Failed(IndexFileNotFound(index.value))
    ensures !Given(index) ==> PackSingle(st, codec, pth, index, out, logsDir) == PackSingle(st, codec, pth, None, out, logsDir)
  {
  }

  /**
    On success the archive holds a single-form container through the
    packer's codec, its weights are those loaded from the weights file, and
    it carries index data exactly when an index path was given, read from
    that path.
   */
  lemma PackSingleContainer(st: Store, codec: Codec, pth: string, index: Option<string>, out: Option<string>, logsDir: string, dest: string, a: Archive)
    requires PackSingle(st, codec, pth, index, out, logsDir) == Written(dest, a)
    ensures a.codec == codec && a.container.Single?
    ensures st.loadWeights(pth) == Some(a.container.modelState)
    ensures a.container.indexData.Some? <==> Given(index)
    ensures Given(index) ==> a.container.indexData == st.readIndex(index.value)
  {
  }

  /**
    The destination is the output path as given; without one it is a file
    in the logs directory named `<stem>.uvcp`, whose stem is again the stem of
    the weights file (when that stem is not empty).
   */
  lemma PackSingleDestination(st: Store, codec: Codec, pth: string, index: Option<string>, out: Option<string>, logsDir: string, dest: string, a: Archive)
    requires PackSingle(st, codec, pth, index, out, logsDir) == Written(dest, a)
    ensures Given(out) ==> dest == out.value
    ensures !Given(out) ==> dest == Join(logsDir, Stem(pth) + ".uvcp") && Name(dest) == Stem(pth) + ".uvcp"
    ensures !Given(out) && Stem(pth) != "" ==> Stem(dest) == Stem(pth)
  {
    if !Given(out) {
      var base := Stem(pth);
      if base != "" {
        assert base + ".uvcp" == base + "." + "uvcp";
        StemOfJoinedName(logsDir, base, "uvcp");
      } else {
        assert base + ".uvcp" == ".uvcp";
        NameOfJoin(logsDir, ".uvcp");
      }
    }
  }

  /** The two variants agree on everything but the codec. */
  lemma PackSingleCodecOnly(st: Store, c1: Codec, c2: Codec, pth: string, index: Option<string>, out: Option<string>, logsDir: string)
    ensures PackSingle(st, c1, pth, index, out, logsDir).Written? == PackSingle(st, c2, pth, index, out, logsDir).Written?
    ensures PackSingle(st, c1, pth, index, out, logsDir).Failed?
      ==> PackSingle(st, c1, pth, index, out, logsDir) == PackSingle(st, c2, pth, index, out, logsDir)
    ensures PackSingle(st, c1, pth, index, out, logsDir).Written? ==>
      var w1, w2 := PackSingle(st, c1, pth, index, out, logsDir), PackSingle(st, c2, pth, index, out, logsDir);
      w1.dest == w2.dest && w1.archive.container == w2.archive.container
  {
  }

  /** The status line of a single-model packer's success names only the destination. */
  lemma PackSingleReport(st: Store, codec: Codec, pth: string, index: Option<string>, out: Option<string>, logsDir: string, dest: string, a: Archive)
    requires PackSingle(st, codec, pth, index, out, logsDir) == Written(dest, a)
    ensures Report(Written(dest, a)) == SuccessWords + ": " + dest
  {
  }
}
