/**
  The lz4 variant of the single-model packer: the container is written
  through an LZ4 frame stream, and read back by a loader that tells the
  container forms apart by the keys they hold.
 */
module Lz4Packer {
  import opened UvcpTypes
  import opened PathNames
  import opened SinglePacker
  import MultiPacker

  /**
    `create_uvcp`: checks the weights file, loads it into a fresh container,
    adds the index data when an index path is given (checking that file
    first), then picks the destination.
   */
  method CreateUvcp(st: Store, pthPath: string, indexPath: Option<string>, outputPath: Option<string>, logsDir: string)
    returns (r: Outcome)
    ensures r == PackSingle(st, Lz4, pthPath, indexPath, outputPath, logsDir)
  {
    if pthPath !in st.onDisk {
      return Failed(WeightFileNotFound(pthPath));
    }
    var pthData := st.loadWeights(pthPath);
    if pthData.None? {
      return Failed(Raised);
    }
    var uvcpData := Single(pthData.value, None);
    if Given(indexPath) {
      if indexPath.value !in st.onDisk {
        return Failed(IndexFileNotFound(indexPath.value));
      }
      var index := st.readIndex(indexPath.value);
      if index.None? {
        return Failed(Raised);
      }
      uvcpData := uvcpData.(indexData := Some(index.value));
    }
    var finalOutputPath: string;
    if Given(outputPath) {
      finalOutputPath := outputPath.value;
    } else {
      var baseName := Stem(pthPath);
      var uvcpFilename := baseName + ".uvcp";
      finalOutputPath := Join(logsDir, uvcpFilename);
    }
    r := Written(finalOutputPath, Archive(Lz4, uvcpData));
  }

  /**
    `run_create_uvcp_script`: refuses a missing weights upload, passes the
    index upload's path when there is one and treats a blank output path as
    absent.
   */
  method RunCreateUvcpScript(st: Store, pthFile: Option<string>, indexFile: Option<string>, outputPath: Option<string>, logsDir: string)
    returns (r: Outcome)
    ensures pthFile.None? ==> r == Failed(NoModelGiven)
    ensures pthFile.Some? ==> r == PackSingle(st, Lz4, pthFile.value, indexFile, BlankAsNone(outputPath), logsDir)
  {
    if pthFile.None? {
      return Failed(NoModelGiven);
    }
    var pthPath := pthFile.value;
    var indexPath := indexFile;
    r := CreateUvcp(st, pthPath, indexPath, BlankAsNone(outputPath), logsDir);
  }

  /** A value stored under a key of the dictionary a container is saved as. */
  datatype Value = Payload(blob: Blob) | Models(models: map<nat, Entry>)

  /** `uvcp_data.get(key)`: the container seen as the dictionary it is saved as. */
  function Lookup(c: Container, key: string): Option<Value>
  {
    match c
    case Single(weights, indexData) =>
      if key == "model_state" then Some(Payload(weights))
      else if key == "index_data" && indexData.Some? then Some(Payload(indexData.value))
      else None
    case Multi(models) =>
      if key == "models" then Some(Models(models)) else None
  }

  /**
    What `load_uvcp_fast` returns: the value under "model_state" (None when
    the key is absent) and the deserialised index, or the failure pair
    `(message, None)`.
   */
  datatype Loaded<I> = Loaded(modelState: Option<Value>, index: Option<I>) | LoadFailed

  /**
    `load_uvcp_fast`: `file` is what opening the path yields (None when it
    cannot be opened or read); `readIndexBuffer` deserialises an index
    buffer (None when that raises). An archive not written through LZ4 frames
    cannot be decompressed. The index is read only when the "index_data"
    key is present, and every exception becomes the failure pair.
   */
  function LoadUvcpFast<I>(file: Option<Archive>, readIndexBuffer: Blob -> Option<I>): Loaded<I>
  {
    if file.None? || file.value.codec != Lz4 then LoadFailed
    else
      var uvcpData := file.value.container;
      var modelState := Lookup(uvcpData, "model_state");
      match Lookup(uvcpData, "index_data")
      case None => Loaded(modelState, None)
      case Some(Models(_)) => LoadFailed  // never: "index_data" only ever holds a buffer
      case Some(Payload(indexBuffer)) =>
        match readIndexBuffer(indexBuffer)
        case None => LoadFailed
        case Some(index) => Loaded(modelState, Some(index))
  }

  /**
    The loader tells the container forms apart by their keys: the weights
    come back exactly for the single form, an index exactly when the
    container holds index data, and loading fails only for a file that is
    missing or not LZ4, or an index buffer that does not deserialise.
   */
  lemma LoaderReadsKeys<I>(file: Option<Archive>, readIndexBuffer: Blob -> Option<I>)
    ensures file.None? || file.value.codec != Lz4 ==> LoadUvcpFast(file, readIndexBuffer).LoadFailed?
    ensures file.Some? && file.value.codec == Lz4 ==>
      var c, r := file.value.container, LoadUvcpFast(file, readIndexBuffer);
      && (r.LoadFailed? <==> c.Single? && c.indexData.Some? && readIndexBuffer(c.indexData.value).None?)
      && (r.Loaded? ==> (r.modelState.Some? <==> c.Single?))
      && (r.Loaded? && c.Single? ==> r.modelState == Some(Payload(c.modelState)))
      && (r.Loaded? ==> (r.index.Some? <==> c.Single? && c.indexData.Some?))
  {
  }

  /**
    What the lz4 packer writes, the loader reads back: the weights loaded
    from the weights file, and the index read from the index file exactly
    when one was given.
   */
  lemma PackThenLoad<I>(st: Store, pth: string, index: Option<string>, out: Option<string>, logsDir: string, dest: string, a: Archive, readIndexBuffer: Blob -> Option<I>)
    requires PackSingle(st, Lz4, pth, index, out, logsDir) == Written(dest, a)
    ensures st.loadWeights(pth).Some?
    ensures !Given(index) ==> LoadUvcpFast(Some(a), readIndexBuffer) == Loaded(Some(Payload(st.loadWeights(pth).value)), None)
    ensures Given(index) ==> st.readIndex(index.value).Some?
    ensures Given(index) ==>
      var buffer := st.readIndex(index.value).value;
      LoadUvcpFast(Some(a), readIndexBuffer) ==
        if readIndexBuffer(buffer).Some? then Loaded(Some(Payload(st.loadWeights(pth).value)), readIndexBuffer(buffer))
        else LoadFailed
  {
    PackSingleContainer(st, Lz4, pth, index, out, logsDir, dest, a);
  }

  /**
    The loader cannot read what the gzip packer or the multi-model packer
    writes: those archives are not LZ4 streams.
   */
  lemma LoaderRejectsOtherPackers<I>(st: Store, pth: string, index: Option<string>, ps: seq<string>, ix: seq<string>,
                                     out: Option<string>, logsDir: string, readIndexBuffer: Blob -> Option<I>)
    ensures PackSingle(st, Gzip, pth, index, out, logsDir).Written? ==>
      LoadUvcpFast(Some(PackSingle(st, Gzip, pth, index, out, logsDir).archive), readIndexBuffer) == LoadFailed
    ensures MultiPacker.PackMulti(st, ps, ix, out, logsDir).Written? ==>
      LoadUvcpFast(Some(MultiPacker.PackMulti(st, ps, ix, out, logsDir).archive), readIndexBuffer) == LoadFailed
  {
  }
}
