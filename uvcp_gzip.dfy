/**
  The gzip variant of the single-model packer: the container is written
  through a gzip stream.
 */
module GzipPacker {
  import opened UvcpTypes
  import opened PathNames
  import opened SinglePacker

  /**
    `create_uvcp`: checks the weights file, loads it into a fresh container,
    adds the index data when an index path is given (checking that file
    first), then picks the destination.
   */
  method CreateUvcp(st: Store, pthPath: string, indexPath: Option<string>, outputPath: Option<string>, logsDir: string)
    returns (r: Outcome)
    ensures r == PackSingle(st, Gzip, pthPath, indexPath, outputPath, logsDir)
  {
    if pthPath !in st.onDisk {
      return Failed(WeightFileNotFound(pthPath));
    }
    var pthData := st.loadWeights(pthPath);
    if pthData.None? {
      return Failed(Raised);
    }
    var uvcpData := Single(pthData.value, None);
    if Given(indexPath) {
      if indexPath.value !in st.onDisk {
        return Failed(IndexFileNotFound(indexPath.value));
      }
      var index := st.readIndex(indexPath.value);
      if index.None? {
        return Failed(Raised);
      }
      uvcpData := uvcpData.(indexData := Some(index.value));
    }
    var finalOutputPath: string;
    if Given(outputPath) {
      finalOutputPath := outputPath.value;
    } else {
      var baseName := Stem(pthPath);
      var uvcpFilename := baseName + ".uvcp";
      finalOutputPath := Join(logsDir, uvcpFilename);
    }
    r := Written(finalOutputPath, Archive(Gzip, uvcpData));
  }

  /**
    `run_create_uvcp_script`: refuses a missing weights upload, passes the
    index upload's path when there is one and treats a blank output path as
    absent.
   */
  method RunCreateUvcpScript(st: Store, pthFile: Option<string>, indexFile: Option<string>, outputPath: Option<string>, logsDir: string)
    returns (r: Outcome)
    ensures pthFile.None? ==> r == Failed(NoModelGiven)
    ensures pthFile.Some? ==> r == PackSingle(st, Gzip, pthFile.value, indexFile, BlankAsNone(outputPath), logsDir)
  {
    if pthFile.None? {
      return Failed(NoModelGiven);
    }
    var pthPath := pthFile.value;
    var indexPath := indexFile;
    r := CreateUvcp(st, pthPath, indexPath, BlankAsNone(outputPath), logsDir);
  }
}
