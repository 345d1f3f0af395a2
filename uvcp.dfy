/**
  The multi-model packer: every uploaded weights file becomes one entry of a
  multi-form container, numbered 0, 1, 2, ... in the order of the sorted
  upload paths, and takes the index file whose stem matches its own. The
  archive is written through Zstandard.
 */
module MultiPacker {
  import opened UvcpTypes
  import opened PathNames
  import opened Ordering

  /** The position of the last path of `ix` whose stem is `s`, or -1 when there is none. */
  function LastWithStem(ix: seq<string>, s: string): (j: int)
    ensures -1 <= j < |ix|
    ensures j >= 0 ==> Stem(ix[j]) == s
    ensures forall k :: j < k < |ix| ==> Stem(ix[k]) != s
    decreases |ix|
  {
    if ix == [] then -1
    else if Stem(ix[|ix| - 1]) == s then |ix| - 1
    else
      var init := ix[..|ix| - 1];
      assert forall k :: 0 <= k < |init| ==> init[k] == ix[k];
      LastWithStem(init, s)
  }

  /** `{Path(p).stem: p for p in index_paths}`: the stem-to-path dictionary of the index paths. */
  function IndexByStem(ix: seq<string>): map<string, string>
    decreases |ix|
  {
    if ix == [] then map[] else IndexByStem(ix[..|ix| - 1])[Stem(ix[|ix| - 1]) := ix[|ix| - 1]]
  }

  /**
    A stem is a key of the dictionary exactly when some index path has it,
    and it maps to the last index path with that stem: later paths
    overwrite earlier ones.
   */
  lemma {:induction false} IndexByStemLastWins(ix: seq<string>)
    ensures forall s :: s in IndexByStem(ix) <==> LastWithStem(ix, s) >= 0
    ensures forall s :: s in IndexByStem(ix) ==> IndexByStem(ix)[s] == ix[LastWithStem(ix, s)]
    decreases |ix|
  {
    if ix != [] {
      var init := ix[..|ix| - 1];
      IndexByStemLastWins(init);
      assert forall k :: 0 <= k < |init| ==> init[k] == ix[k];
    }
  }

  /** A stem is a key exactly when some index path has that stem. */
  lemma IndexByStemKeys(ix: seq<string>, s: string)
    ensures s in IndexByStem(ix) <==> exists j :: 0 <= j < |ix| && Stem(ix[j]) == s
  {
    IndexByStemLastWins(ix);
    if exists j :: 0 <= j < |ix| && Stem(ix[j]) == s {
      var j :| 0 <= j < |ix| && Stem(ix[j]) == s;
      assert LastWithStem(ix, s) >= j;
    }
  }

  /**
    One pass of the packing loop for the weights file `pth`: the weights file
    must exist and load; then, if an index file has the same stem, it must
    exist and load too.
   */
  function EntryFor(st: Store, byStem: map<string, string>, pth: string): (r: Result<Entry, PackError>)
    ensures r.Ok? <==> && pth in st.onDisk && st.loadWeights(pth).Some?
                       && (Stem(pth) in byStem ==> byStem[Stem(pth)] in st.onDisk && st.readIndex(byStem[Stem(pth)]).Some?)
    ensures pth !in st.onDisk ==> r == Err(WeightFileNotFound(pth))
    ensures pth in st.onDisk && st.loadWeights(pth).None? ==> r == Err(Raised)
    ensures pth in st.onDisk && st.loadWeights(pth).Some? && Stem(pth) in byStem && byStem[Stem(pth)] !in st.onDisk
      ==> r == Err(MatchingIndexNotFound(Stem(pth), byStem[Stem(pth)]))
    ensures (pth in st.onDisk && st.loadWeights(pth).Some? && Stem(pth) in byStem && byStem[Stem(pth)] in st.onDisk
             && st.readIndex(byStem[Stem(pth)]).None?) ==> r == Err(Raised)
    ensures r.Ok? ==> st.loadWeights(pth) == Some(r.value.modelState)
    ensures r.Ok? ==> (r.value.indexData.Some? <==> Stem(pth) in byStem)
    ensures r.Ok? && Stem(pth) in byStem ==> r.value.indexData == st.readIndex(byStem[Stem(pth)])
    ensures r.Err? && r.error.MatchingIndexNotFound? ==>
      pth in st.onDisk && Stem(pth) in byStem && byStem[Stem(pth)] !in st.onDisk
      && r.error == MatchingIndexNotFound(Stem(pth), byStem[Stem(pth)])
  {
    if pth !in st.onDisk then Err(WeightFileNotFound(pth))
    else match st.loadWeights(pth)
      case None => Err(Raised)
      case Some(weights) =>
        var stem := Stem(pth);
        if stem !in byStem then Ok(Entry(weights, None))
        else if byStem[stem] !in st.onDisk then Err(MatchingIndexNotFound(stem, byStem[stem]))
        else match st.readIndex(byStem[stem])
          case None => Err(Raised)
          case Some(index) => Ok(Entry(weights, Some(index)))
  }

  /**
    The entries of all weights files in list order, or the error of the first
    one that fails: nothing after a failing file is looked at.
   */
  function CollectEntries(st: Store, byStem: map<string, string>, ps: seq<string>): (r: Result<seq<Entry>, PackError>)
    ensures r.Ok? <==> forall i :: 0 <= i < |ps| ==> EntryFor(st, byStem, ps[i]).Ok?
    ensures r.Ok? ==> |r.value| == |ps| && forall i :: 0 <= i < |ps| ==> EntryFor(st, byStem, ps[i]) == Ok(r.value[i])
    ensures r.Err? ==> exists i :: 0 <= i < |ps| && EntryFor(st, byStem, ps[i]) == Err(r.error)
                                 && forall j :: 0 <= j < i ==> EntryFor(st, byStem, ps[j]).Ok?
    decreases |ps|
  {
    if ps == [] then Ok([])
    else
      var init := ps[..|ps| - 1];
      assert forall i :: 0 <= i < |ps| - 1 ==> ps[i] == init[i];
      match CollectEntries(st, byStem, init)
      case Err(e) => Err(e)
      case Ok(es) =>
        match EntryFor(st, byStem, ps[|ps| - 1])
        case Err(e) => Err(e)
        case Ok(x) => Ok(es + [x])
  }

  /** Entries keyed by their position: the speaker IDs. */
  function Numbered(es: seq<Entry>): map<nat, Entry>
  {
    map i: nat | i < |es| :: es[i]
  }

  /** The file name used when no output path is given. */
  function DefaultMultiName(ps: seq<string>): string
    requires |ps| > 0
  {
    Stem(ps[0]) + (if |ps| > 1 then "_multi.uvcp" else ".uvcp")
  }

  /**
    What `create_uvcp` does with sorted weights paths `ps`, index paths `ix`
    and an optional output path. With no output path the first weights
    path names the file; an empty list then has no first path, which raises.
   */
  function PackMulti(st: Store, ps: seq<string>, ix: seq<string>, out: Option<string>, logsDir: string): Outcome
  {
    match CollectEntries(st, IndexByStem(ix), ps)
    case Err(e) => Failed(e)
    case Ok(es) =>
      if Given(out) then Written(out.value, Archive(Zstd, Multi(Numbered(es))))
      else if |ps| == 0 then Failed(Raised)
      else Written(Join(logsDir, DefaultMultiName(ps)), Archive(Zstd, Multi(Numbered(es))))
  }

  lemma {:induction false} NumberedSize(es: seq<Entry>)
    ensures |Numbered(es)| == |es|
    decreases |es|
  {
    if es != [] {
      var init := es[..|es| - 1];
      NumberedSize(init);
      assert Numbered(es) == Numbered(init)[|es| - 1 := es[|es| - 1]];
    }
  }

  /**
    On success the container is always the multi form, its speaker IDs are
    exactly 0 .. n-1 (so there are n models), and speaker i holds the weights
    loaded from `ps[i]`.
   */
  lemma PackMultiAssignsIds(st: Store, ps: seq<string>, ix: seq<string>, out: Option<string>, logsDir: string, dest: string, a: Archive)
    requires PackMulti(st, ps, ix, out, logsDir) == Written(dest, a)
    ensures a.codec == Zstd && a.container.Multi?
    ensures forall i: int :: i in a.container.models <==> 0 <= i < |ps|
    ensures |a.container.models| == |ps|
    ensures forall i :: 0 <= i < |ps| ==> st.loadWeights(ps[i]) == Some(a.container.models[i].modelState)
  {
    var es := CollectEntries(st, IndexByStem(ix), ps).value;
    assert a.container.models == Numbered(es);
    NumberedSize(es);
  }

  /** On success, speaker i holds what the packing loop made of `ps[i]`. */
  lemma PackMultiEntry(st: Store, ps: seq<string>, ix: seq<string>, out: Option<string>, logsDir: string, dest: string, a: Archive, i: int)
    requires PackMulti(st, ps, ix, out, logsDir) == Written(dest, a)
    requires 0 <= i < |ps|
    ensures a.container.Multi? && i in a.container.models
    ensures EntryFor(st, IndexByStem(ix), ps[i]) == Ok(a.container.models[i])
  {
    var es := CollectEntries(st, IndexByStem(ix), ps).value;
    assert a.container.models == Numbered(es);
  }

  /**
    Speaker i carries index data exactly when some index path has the stem
    of `ps[i]`, and then it is the index read from the last such path.
   */
  lemma PackMultiPairsIndexes(st: Store, ps: seq<string>, ix: seq<string>, out: Option<string>, logsDir: string, dest: string, a: Archive, i: int)
    requires PackMulti(st, ps, ix, out, logsDir) == Written(dest, a)
    requires 0 <= i < |ps|
    ensures a.container.Multi? && i in a.container.models
    ensures a.container.models[i].indexData.Some? <==> exists j :: 0 <= j < |ix| && Stem(ix[j]) == Stem(ps[i])
    ensures LastWithStem(ix, Stem(ps[i])) >= 0 ==>
      a.container.models[i].indexData == st.readIndex(ix[LastWithStem(ix, Stem(ps[i]))])
  {
    PackMultiEntry(st, ps, ix, out, logsDir, dest, a, i);
    IndexByStemLastWins(ix);
    IndexByStemKeys(ix, Stem(ps[i]));
  }

  /**
    Errors come from the first weights file whose checks fail: if files
    0 .. i-1 pass and file i fails (its weights first, then its index), the
    packer reports file i's error, and writes nothing.
   */
  lemma PackMultiStopsAtFirstFailure(st: Store, ps: seq<string>, ix: seq<string>, out: Option<string>, logsDir: string, i: nat)
    requires i < |ps|
    requires forall j :: 0 <= j < i ==> EntryFor(st, IndexByStem(ix), ps[j]).Ok?
    requires EntryFor(st, IndexByStem(ix), ps[i]).Err?
    ensures PackMulti(st, ps, ix, out, logsDir) == Failed(EntryFor(st, IndexByStem(ix), ps[i]).error)
  {
    var d := IndexByStem(ix);
    var c := CollectEntries(st, d, ps);
    assert c.Err?;
    var i' :| 0 <= i' < |ps| && EntryFor(st, d, ps[i']) == Err(c.error)
      && forall j :: 0 <= j < i' ==> EntryFor(st, d, ps[j]).Ok?;
    assert i' == i;
  }

  /** The same, with the passing files given as a prefix whose entries were all collected. */
  lemma PackMultiStopsAfterPrefix(st: Store, ps: seq<string>, ix: seq<string>, out: Option<string>, logsDir: string, i: nat)
    requires i < |ps|
    requires CollectEntries(st, IndexByStem(ix), ps[..i]).Ok?
    requires EntryFor(st, IndexByStem(ix), ps[i]).Err?
    ensures PackMulti(st, ps, ix, out, logsDir) == Failed(EntryFor(st, IndexByStem(ix), ps[i]).error)
  {
    var d := IndexByStem(ix);
    forall j | 0 <= j < i ensures EntryFor(st, d, ps[j]).Ok? {
      assert ps[..i][j] == ps[j];
    }
    PackMultiStopsAtFirstFailure(st, ps, ix, out, logsDir, i);
  }

  /**
    The packer writes exactly when every weights file and every matched
    index file exists and loads, and there is a destination: an output
    path, or at least one weights file to name the default file after.
   */
  lemma PackMultiSucceedsIff(st: Store, ps: seq<string>, ix: seq<string>, out: Option<string>, logsDir: string)
    ensures PackMulti(st, ps, ix, out, logsDir).Written?
      <==> (forall i :: 0 <= i < |ps| ==> EntryFor(st, IndexByStem(ix), ps[i]).Ok?) && (Given(out) || |ps| > 0)
  {
  }

  /**
    The destination: the output path as given, else a file in the logs
    directory named after the first weights file, `<stem>_multi.uvcp` for
    several models and `<stem>.uvcp` for one; its stem is recovered from
    the destination.
   */
  lemma PackMultiDestination(st: Store, ps: seq<string>, ix: seq<string>, out: Option<string>, logsDir: string, dest: string, a: Archive)
    requires PackMulti(st, ps, ix, out, logsDir) == Written(dest, a)
    ensures Given(out) ==> dest == out.value
    ensures !Given(out) ==>
      && |ps| > 0
      && dest == Join(logsDir, DefaultMultiName(ps))
      && Name(dest) == DefaultMultiName(ps)
      && (|ps| > 1 ==> Stem(dest) == Stem(ps[0]) + "_multi")
      && (|ps| == 1 && Stem(ps[0]) != "" ==> Stem(dest) == Stem(ps[0]))
  {
    if !Given(out) {
      var base := Stem(ps[0]);
      if |ps| > 1 {
        assert DefaultMultiName(ps) == (base + "_multi") + "." + "uvcp";
        assert '/' !in base + "_multi" by {
          forall k | 0 <= k < |base + "_multi"| ensures (base + "_multi")[k] != '/' {
            if k < |base| { assert (base + "_multi")[k] == base[k]; }
          }
        }
        StemOfJoinedName(logsDir, base + "_multi", "uvcp");
      } else if base != "" {
        assert DefaultMultiName(ps) == base + "." + "uvcp";
        StemOfJoinedName(logsDir, base, "uvcp");
      } else {
        assert DefaultMultiName(ps) == ".uvcp";
        NameOfJoin(logsDir, ".uvcp");
      }
    }
  }

  /** The status line of a success counts one model per weights file. */
  lemma PackMultiReport(st: Store, ps: seq<string>, ix: seq<string>, out: Option<string>, logsDir: string, dest: string, a: Archive)
    requires PackMulti(st, ps, ix, out, logsDir) == Written(dest, a)
    ensures Report(Written(dest, a)) == SuccessWords + " with " + Decimal(|ps|) + " model(s): " + dest
  {
    PackMultiAssignsIds(st, ps, ix, out, logsDir, dest, a);
    ReportCountsModels(dest, a.codec, a.container.models);
  }

  /** Two dictionaries that answer the same for stem `s`. */
  predicate SameLookup(d1: map<string, string>, d2: map<string, string>, s: string)
  {
    (s in d1 <==> s in d2) && (s in d1 ==> d1[s] == d2[s])
  }

  lemma {:induction false} CollectEntriesLooksUpOwnStems(st: Store, d1: map<string, string>, d2: map<string, string>, ps: seq<string>)
    requires forall i :: 0 <= i < |ps| ==> SameLookup(d1, d2, Stem(ps[i]))
    ensures CollectEntries(st, d1, ps) == CollectEntries(st, d2, ps)
    decreases |ps|
  {
    if ps != [] {
      var init := ps[..|ps| - 1];
      assert forall i :: 0 <= i < |init| ==> init[i] == ps[i];
      CollectEntriesLooksUpOwnStems(st, d1, d2, init);
      assert SameLookup(d1, d2, Stem(ps[|ps| - 1]));
      assert EntryFor(st, d1, ps[|ps| - 1]) == EntryFor(st, d2, ps[|ps| - 1]);
    }
  }

  /** The dictionary of a concatenation: the second part's stems override the first's. */
  lemma {:induction false} IndexByStemConcat(a: seq<string>, b: seq<string>)
    ensures IndexByStem(a + b) == IndexByStem(a) + IndexByStem(b)
    decreases |b|
  {
    if b == [] {
      assert a + b == a;
    } else {
      var b' := b[..|b| - 1];
      var p := b[|b| - 1];
      assert (a + b)[..|a + b| - 1] == a + b';
      assert (a + b)[|a + b| - 1] == p;
      IndexByStemConcat(a, b');
    }
  }

  /** Inserting one index path changes the dictionary only under that path's stem. */
  lemma IndexByStemInsert(ix: seq<string>, k: nat, q: string, s: string)
    requires k <= |ix|
    requires s != Stem(q)
    ensures SameLookup(IndexByStem(ix[..k] + [q] + ix[k..]), IndexByStem(ix), s)
  {
    var front, back := ix[..k], ix[k..];
    IndexByStemConcat(front + [q], back);
    IndexByStemConcat(front, [q]);
    IndexByStemConcat(front, back);
    assert front + back == ix;
    assert IndexByStem([q]) == map[Stem(q) := q] by {
      assert [q][..0] == [];
    }
  }

  /**
    An index file whose stem is the stem of no weights file changes nothing:
    inserting it anywhere in the index list gives the same outcome.
   */
  lemma UnmatchedIndexIgnored(st: Store, ps: seq<string>, ix: seq<string>, k: nat, q: string, out: Option<string>, logsDir: string)
    requires k <= |ix|
    requires forall i :: 0 <= i < |ps| ==> Stem(ps[i]) != Stem(q)
    ensures PackMulti(st, ps, ix[..k] + [q] + ix[k..], out, logsDir) == PackMulti(st, ps, ix, out, logsDir)
  {
    var d1 := IndexByStem(ix[..k] + [q] + ix[k..]);
    var d2 := IndexByStem(ix);
    forall i | 0 <= i < |ps| ensures SameLookup(d1, d2, Stem(ps[i])) {
      IndexByStemInsert(ix, k, q, Stem(ps[i]));
    }
    CollectEntriesLooksUpOwnStems(st, d1, d2, ps);
  }

  /** One more passing file extends the collected entries by its entry. */
  lemma CollectEntriesStep(st: Store, d: map<string, string>, ps: seq<string>, i: nat, e: Entry)
    requires i < |ps|
    requires CollectEntries(st, d, ps[..i]).Ok?
    requires EntryFor(st, d, ps[i]) == Ok(e)
    ensures CollectEntries(st, d, ps[..i + 1]) == Ok(CollectEntries(st, d, ps[..i]).value + [e])
  {
    assert ps[..i + 1][..i] == ps[..i];
    assert ps[..i + 1][i] == ps[i];
  }

  /** Numbering one more entry adds it under the next speaker ID. */
  lemma NumberedSnoc(es: seq<Entry>, e: Entry)
    ensures Numbered(es + [e]) == Numbered(es)[|es| := e]
  {
  }

  /**
    `create_uvcp`: fills the models dictionary one weights file at a time,
    returning at the first missing or unreadable file, then picks the
    destination.
   */
  method CreateUvcp(st: Store, pthPaths: seq<string>, indexPaths: seq<string>, outputPath: Option<string>, logsDir: string)
    returns (r: Outcome)
    ensures r == PackMulti(st, pthPaths, indexPaths, outputPath, logsDir)
  {
    var modelsData: map<nat, Entry> := map[];
    var indexPathsByStem := IndexByStem(indexPaths);
    for i := 0 to |pthPaths|
      invariant CollectEntries(st, indexPathsByStem, pthPaths[..i]).Ok?
      invariant modelsData == Numbered(CollectEntries(st, indexPathsByStem, pthPaths[..i]).value)
    {
      var pthPath := pthPaths[i];
      if pthPath !in st.onDisk {
        PackMultiStopsAfterPrefix(st, pthPaths, indexPaths, outputPath, logsDir, i);
        return Failed(WeightFileNotFound(pthPath));
      }
      var pthFileStem := Stem(pthPath);
      var pthData := st.loadWeights(pthPath);
      if pthData.None? {
        PackMultiStopsAfterPrefix(st, pthPaths, indexPaths, outputPath, logsDir, i);
        return Failed(Raised);
      }
      var modelEntry := Entry(pthData.value, None);
      if pthFileStem in indexPathsByStem {
        var indexPath := indexPathsByStem[pthFileStem];
        if indexPath !in st.onDisk {
          PackMultiStopsAfterPrefix(st, pthPaths, indexPaths, outputPath, logsDir, i);
          return Failed(MatchingIndexNotFound(pthFileStem, indexPath));
        }
        var index := st.readIndex(indexPath);
        if index.None? {
          PackMultiStopsAfterPrefix(st, pthPaths, indexPaths, outputPath, logsDir, i);
          return Failed(Raised);
        }
        modelEntry := modelEntry.(indexData := Some(index.value));
      }
      assert EntryFor(st, indexPathsByStem, pthPath) == Ok(modelEntry);
      ghost var before := CollectEntries(st, indexPathsByStem, pthPaths[..i]).value;
      CollectEntriesStep(st, indexPathsByStem, pthPaths, i, modelEntry);
      NumberedSnoc(before, modelEntry);
      modelsData := modelsData[i := modelEntry];
    }
    assert pthPaths[..|pthPaths|] == pthPaths;
    var finalOutputPath: string;
    if Given(outputPath) {
      finalOutputPath := outputPath.value;
    } else {
      if |pthPaths| == 0 {
        // pth_paths[0] raises IndexError, caught by the packer
        return Failed(Raised);
      }
      var baseName := Stem(pthPaths[0]);
      var uvcpFilename := if |pthPaths| > 1 then baseName + "_multi.uvcp" else baseName + ".uvcp";
      finalOutputPath := Join(logsDir, uvcpFilename);
    }
    r := Written(finalOutputPath, Archive(Zstd, Multi(modelsData)));
  }

  /**
    `run_create_uvcp_script`: refuses an empty upload list, sorts the upload
    paths (full path strings), treats a blank output path as absent and
    hands over to `create_uvcp`.
   */
  method RunCreateUvcpScript(st: Store, pthFiles: seq<string>, indexFiles: seq<string>, outputPath: Option<string>, logsDir: string)
    returns (r: Outcome)
    ensures |pthFiles| == 0 ==> r == Failed(NoModelsGiven)
    ensures |pthFiles| > 0 ==> r == PackMulti(st, SortBy(Below, pthFiles), indexFiles, BlankAsNone(outputPath), logsDir)
  {
    if |pthFiles| == 0 {
      return Failed(NoModelsGiven);
    }
    var pthPaths := SortBy(Below, pthFiles);
    var indexPaths := indexFiles;
    r := CreateUvcp(st, pthPaths, indexPaths, BlankAsNone(outputPath), logsDir);
  }

  /**
    The script's outcome depends only on which paths were uploaded, not on
    the order they arrive in, and speaker IDs follow the sorted paths.
   */
  lemma UploadOrderDoesNotMatter(st: Store, a: seq<string>, b: seq<string>, ix: seq<string>, out: Option<string>, logsDir: string)
    requires multiset(a) == multiset(b)
    ensures PackMulti(st, SortBy(Below, a), ix, out, logsDir) == PackMulti(st, SortBy(Below, b), ix, out, logsDir)
    ensures forall i, j :: 0 <= i < j < |a| ==> Below(SortBy(Below, a)[i], SortBy(Below, a)[j])
  {
    BelowIsTotalOrder();
    SortByForgetsOrder(Below, a, b);
    SortBySorted(Below, a);
  }

  /**
    As written, the sort key is the whole upload path, so the directory the
    upload sits in decides the speaker IDs before the file name does: here
    "b.pth" gets ID 0 although "a.pth" comes first by name.
   */
  lemma FullPathSortIgnoresFileNames()
    ensures SortBy(Below, ["/t/9/a.pth", "/t/1/b.pth"]) == ["/t/1/b.pth", "/t/9/a.pth"]
    ensures Name("/t/1/b.pth") == "b.pth" && Name("/t/9/a.pth") == "a.pth"
    ensures Below("a.pth", "b.pth") && !Below("b.pth", "a.pth")
  {
    BelowAtFirstDifference("/t/9/a.pth", "/t/1/b.pth", 3);
    SortTwo(Below, "/t/9/a.pth", "/t/1/b.pth");
    BelowAtFirstDifference("a.pth", "b.pth", 0);
    BelowAtFirstDifference("b.pth", "a.pth", 0);
    assert "/t/1/b.pth" == Join("/t/1", "b.pth");
    assert "/t/9/a.pth" == Join("/t/9", "a.pth");
    NameOfJoin("/t/1", "b.pth");
    NameOfJoin("/t/9", "a.pth");
  }

  /** The corrected order: by file name first, and by full path among equal names. */
  predicate NameThenPath(a: string, b: string)
  {
    if Name(a) == Name(b) then Below(a, b) else Below(Name(a), Name(b))
  }

  lemma NameThenPathIsTotalOrder()
    ensures IsTotalOrder(NameThenPath)
  {
    BelowIsTotalOrder();
    forall a, b ensures NameThenPath(a, b) || NameThenPath(b, a) {
      assert Below(a, b) || Below(b, a);
      assert Below(Name(a), Name(b)) || Below(Name(b), Name(a));
    }
    forall a, b | NameThenPath(a, b) && NameThenPath(b, a) ensures a == b {
    }
    forall a, b, c | NameThenPath(a, b) && NameThenPath(b, c) ensures NameThenPath(a, c) {
    }
  }

  /**
    With the corrected order, speaker IDs follow the file names of the
    uploads, and the outcome still does not depend on upload order.
   */
  lemma SpeakerIdsFollowFileNames(st: Store, a: seq<string>, b: seq<string>, ix: seq<string>, out: Option<string>, logsDir: string)
    requires multiset(a) == multiset(b)
    ensures var ps := SortBy(NameThenPath, a);
      forall i, j :: 0 <= i < j < |ps| ==> Below(Name(ps[i]), Name(ps[j]))
    ensures PackMulti(st, SortBy(NameThenPath, a), ix, out, logsDir) == PackMulti(st, SortBy(NameThenPath, b), ix, out, logsDir)
  {
    NameThenPathIsTotalOrder();
    BelowIsTotalOrder();
    SortBySorted(NameThenPath, a);
    SortByForgetsOrder(NameThenPath, a, b);
    var ps := SortBy(NameThenPath, a);
    forall i, j | 0 <= i < j < |ps| ensures Below(Name(ps[i]), Name(ps[j])) {
      assert NameThenPath(ps[i], ps[j]);
      BelowTotal(Name(ps[i]), Name(ps[i]));
    }
  }

  /** The example above under the corrected order: "a.pth" gets ID 0. */
  lemma FileNameSortFixesExample()
    ensures SortBy(NameThenPath, ["/t/9/a.pth", "/t/1/b.pth"]) == ["/t/9/a.pth", "/t/1/b.pth"]
  {
    FullPathSortIgnoresFileNames();
    assert NameThenPath("/t/9/a.pth", "/t/1/b.pth");
  }

  /**
    `run_create_uvcp_script` with the sort key corrected to the file name,
    as the form's description of speaker IDs promises.
   */
  method RunCreateUvcpScriptByName(st: Store, pthFiles: seq<string>, indexFiles: seq<string>, outputPath: Option<string>, logsDir: string)
    returns (r: Outcome)
    ensures |pthFiles| == 0 ==> r == Failed(NoModelsGiven)
    ensures |pthFiles| > 0 ==> r == PackMulti(st, SortBy(NameThenPath, pthFiles), indexFiles, BlankAsNone(outputPath), logsDir)
  {
    if |pthFiles| == 0 {
      return Failed(NoModelsGiven);
    }
    var pthPaths := SortBy(NameThenPath, pthFiles);
    r := CreateUvcp(st, pthPaths, indexFiles, BlankAsNone(outputPath), logsDir);
  }
}
