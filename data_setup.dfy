/**
 * `prepare_data`, the driver of the set-up script: resolve the stack name,
 * read the bucket name from the stack outputs, then for each URL in order
 * download the file into the scratch directory `temp_downloads`, upload it
 * under its partitioned key and delete it, and finally remove the directory.
 *
 * Downloads and uploads are abstract outcomes given per URL; the scratch
 * directory is a class holding the set of file names it contains.
 */
module DataSetup {
  import opened Wrappers
  import opened PartitionPrefix
  import opened StackOutputs

  const DefaultStackStem: string := "big-data-agent-infrastructure-"
  const BucketOutput: string := "BucketName"

  /** What `download_file` did: the whole body was written, or it failed. */
  datatype Fetch =
    | Fetched
      /** `partial` holds when the failure came after the local file was opened. */
    | FetchFailed(partial: bool)

  /**
   * What `upload_to_s3` did. Its boolean result is not used by the driver;
   * `UploadRaised` is an exception from creating the S3 client, which
   * happens before the function's `try` and so leaves the loop.
   */
  datatype Put = Uploaded | UploadFailed | UploadRaised(message: string)

  /** What `temp_dir.mkdir(exist_ok=True)` did; it raises, for instance, when a regular file has that name. */
  datatype Mkdir = MkdirOk | MkdirRaised(message: string)

  /** The collaborators' outcomes for one URL. */
  datatype Attempt = Attempt(fetch: Fetch, put: Put)

  /** An upload the driver attempted: the URL, the object key, and whether it succeeded. */
  datatype Transfer = Transfer(url: string, key: string, uploaded: bool)

  /** How `prepare_data` ended. */
  datatype Outcome =
    | NoStackOutputs
    | NoBucketName(available: set<string>)
    | Completed(bucket: string, transfers: seq<Transfer>)
      /** `rmdir` raised because files were left behind, so the call ends in an exception. */
    | CleanupFailed(bucket: string, transfers: seq<Transfer>, leftover: set<string>)
      /** `mkdir` raised before the `try`, so the call ends in that exception. */
    | SetupFailed(bucket: string, message: string)
      /**
       * An upload raised `cause` and left the loop with its file still in the
       * scratch directory, so `rmdir` in the `finally` block raises as well.
       */
    | UploadAborted(bucket: string, transfers: seq<Transfer>, leftover: set<string>, cause: string)

  /** The scratch directory `temp_downloads` and the files in it. */
  class ScratchDir {
    var present: bool
    var files: set<string>

    ghost predicate Valid()
      reads this
    {
      !present ==> files == {}
    }

    constructor (present: bool, files: set<string>)
      requires present || files == {}
      ensures Valid() && this.present == present && this.files == files
    {
      this.present := present;
      this.files := files;
    }

    /** `mkdir(exist_ok=True)`: on success the directory is present with its files; a failure changes nothing. */
    method Create(outcome: Mkdir) returns (created: bool)
      requires Valid()
      modifies this
      ensures Valid() && created == outcome.MkdirOk? && files == old(files)
      ensures present == (created || old(present))
    {
      created := outcome.MkdirOk?;
      if created {
        present := true;
      }
    }

    /** Opening `temp_dir / name` for writing creates or truncates that file. */
    method Write(name: string)
      requires Valid() && present
      modifies this
      ensures Valid() && present && files == old(files) + {name}
    {
      files := files + {name};
    }

    /** `unlink` of a file that is there. */
    method Unlink(name: string)
      requires Valid() && name in files
      modifies this
      ensures Valid() && present == old(present) && files == old(files) - {name}
    {
      files := files - {name};
    }

    /** `rmdir`: removes the directory when it is empty and fails otherwise. */
    method Remove() returns (removed: bool)
      requires Valid() && present
      modifies this
      ensures Valid() && removed == (old(files) == {})
      ensures present == !removed && files == old(files)
    {
      removed := files == {};
      if removed {
        present := false;
      }
    }
  }

  /** A name that `temp_dir / name` opens as a regular file (not the directory or its parent). */
  predicate Writable(name: string)
  {
    name != "" && name != "." && name != ".."
  }

  // ---------------------------------------------------------------------
  // The specification of the driver

  /** The stack name actually queried: a falsy argument falls back to the default. */
  function ResolveStackName(stackName: Option<string>, suffix: string): (name: string)
    ensures stackName.Some? && stackName.value != "" ==> name == stackName.value
    ensures stackName.None? || stackName.value == "" ==> name == DefaultStackStem + suffix
  {
    match stackName
    case Some(n) => if n != "" then n else DefaultStackStem + suffix
    case None => DefaultStackStem + suffix
  }

  /** The scratch set after one URL: written and deleted, left partly written, or untouched. */
  function ScratchStep(files: set<string>, url: string, a: Attempt): set<string>
  {
    var name := LastSegment(url);
    if !Writable(name) then files
    else match a.fetch
      case Fetched => files - {name}
      case FetchFailed(partial) => if partial then files + {name} else files
  }

  /** The URL's file was downloaded and its upload raised, which ends the loop. */
  predicate Raises(url: string, a: Attempt)
  {
    a.fetch.Fetched? && Writable(LastSegment(url)) && a.put.UploadRaised?
  }

  /** The index of the first URL whose upload raises, or the number of URLs. */
  function FirstRaise(urls: seq<string>, attempts: seq<Attempt>): (k: nat)
    requires |attempts| == |urls|
    ensures k <= |urls|
    ensures forall j :: 0 <= j < k ==> !Raises(urls[j], attempts[j])
    ensures k < |urls| ==> Raises(urls[k], attempts[k])
  {
    if urls == [] || Raises(urls[0], attempts[0]) then 0
    else
      var k := 1 + FirstRaise(urls[1..], attempts[1..]);
      assert forall j :: 1 <= j < k ==> urls[1..][j - 1] == urls[j] && attempts[1..][j - 1] == attempts[j];
      k
  }

  /** The upload attempted for one URL, if any. */
  function TransferStep(table: string, url: string, a: Attempt): seq<Transfer>
  {
    var name := LastSegment(url);
    if a.fetch.Fetched? && Writable(name) then [Transfer(url, ObjectKey(table, name), a.put.Uploaded?)]
    else []
  }

  /** The scratch set after processing `urls` in order. */
  function ScratchAfter(files: set<string>, urls: seq<string>, attempts: seq<Attempt>): set<string>
    requires |attempts| == |urls|
    decreases |urls|
  {
    if urls == [] then files
    else ScratchAfter(ScratchStep(files, urls[0], attempts[0]), urls[1..], attempts[1..])
  }

  /** The uploads attempted while processing `urls` in order. */
  function Transfers(table: string, urls: seq<string>, attempts: seq<Attempt>): seq<Transfer>
    requires |attempts| == |urls|
  {
    if urls == [] then []
    else TransferStep(table, urls[0], attempts[0]) + Transfers(table, urls[1..], attempts[1..])
  }

  /** The bucket name the driver proceeds with, if the outputs give a non-empty one. */
  function BucketOf(outputs: map<string, string>): Option<string>
  {
    if BucketOutput in outputs && outputs[BucketOutput] != "" then Some(outputs[BucketOutput]) else None
  }

  /** The whole run, for a scratch directory that starts with `files`. */
  function PrepareSpec(files: set<string>, stackName: Option<string>, suffix: string,
                       urls: seq<string>, table: string,
                       describe: string -> DescribeOutcome, mkdir: Mkdir, attempts: seq<Attempt>): Outcome
    requires |attempts| == |urls|
  {
    var outputs := OutputsOf(describe(ResolveStackName(stackName, suffix)));
    if outputs.None? || outputs.value == map[] then NoStackOutputs
    else match BucketOf(outputs.value)
      case None => NoBucketName(outputs.value.Keys)
      case Some(bucket) =>
        match mkdir
        case MkdirRaised(m) => SetupFailed(bucket, m)
        case MkdirOk =>
          var k := FirstRaise(urls, attempts);
          var transfers := Transfers(table, urls[..k], attempts[..k]);
          var scratch := ScratchAfter(files, urls[..k], attempts[..k]);
          if k < |urls| then
            UploadAborted(bucket, transfers, scratch + {LastSegment(urls[k])}, attempts[k].put.message)
          else if scratch == {} then Completed(bucket, transfers)
          else CleanupFailed(bucket, transfers, scratch)
  }

  // ---------------------------------------------------------------------
  // The driver

  /** `download_file(url, temp_dir / name)`: true when the whole body was written. */
  method DownloadFile(dir: ScratchDir, name: string, fetch: Fetch) returns (ok: bool)
    requires dir.Valid() && dir.present
    modifies dir
    ensures dir.Valid() && dir.present
    ensures ok == (fetch.Fetched? && Writable(name))
    ensures dir.files == if Writable(name) && (fetch.Fetched? || fetch.partial)
                         then old(dir.files) + {name} else old(dir.files)
  {
    if !Writable(name) {
      // Opening the directory itself for writing fails inside the function.
      ok := false;
    } else {
      match fetch {
        case Fetched =>
          dir.Write(name);
          ok := true;
        case FetchFailed(partial) =>
          if partial {
            dir.Write(name);
          }
          ok := false;
      }
    }
  }

  /**
   * The body of the loop for one URL. `raised` reports an upload that raised;
   * the downloaded file is then not unlinked.
   */
  method ProcessUrl(dir: ScratchDir, url: string, table: string, a: Attempt)
    returns (t: seq<Transfer>, raised: bool)
    requires dir.Valid() && dir.present
    modifies dir
    ensures dir.Valid() && dir.present
    ensures raised == Raises(url, a)
    ensures !raised ==> dir.files == ScratchStep(old(dir.files), url, a) && t == TransferStep(table, url, a)
    ensures raised ==> dir.files == old(dir.files) + {LastSegment(url)} && t == []
  {
    var filename := LastSegment(url);
    var downloaded := DownloadFile(dir, filename, a.fetch);
    raised := false;
    t := [];
    if downloaded {
      var key := ObjectKey(table, filename);
      // upload_to_s3(local_path, bucket_name, key): its result is ignored
      if a.put.UploadRaised? {
        raised := true;
      } else {
        var uploaded := a.put.Uploaded?;
        dir.Unlink(filename);
        t := [Transfer(url, key, uploaded)];
      }
    }
  }

  /**
   * The `for` loop of `prepare_data`. It ends after the last URL, or at URL
   * `k` when that URL's upload raises; that URL's file then stays behind.
   */
  method ProcessAll(dir: ScratchDir, urls: seq<string>, table: string, attempts: seq<Attempt>)
    returns (transfers: seq<Transfer>, k: nat)
    requires dir.Valid() && dir.present
    requires |attempts| == |urls|
    modifies dir
    ensures dir.Valid() && dir.present
    ensures k == FirstRaise(urls, attempts)
    ensures transfers == Transfers(table, urls[..k], attempts[..k])
    ensures k == |urls| ==> dir.files == ScratchAfter(old(dir.files), urls[..k], attempts[..k])
    ensures k < |urls| ==> dir.files == ScratchAfter(old(dir.files), urls[..k], attempts[..k]) + {LastSegment(urls[k])}
  {
    transfers := [];
    k := 0;
    var raised := false;
    while k < |urls| && !raised
      invariant 0 <= k <= |urls|
      invariant dir.Valid() && dir.present
      invariant forall j :: 0 <= j < k ==> !Raises(urls[j], attempts[j])
      invariant raised ==> k < |urls| && Raises(urls[k], attempts[k])
      invariant !raised ==> dir.files == ScratchAfter(old(dir.files), urls[..k], attempts[..k])
      invariant raised ==> dir.files == ScratchAfter(old(dir.files), urls[..k], attempts[..k]) + {LastSegment(urls[k])}
      invariant transfers == Transfers(table, urls[..k], attempts[..k])
      decreases |urls| - k, if raised then 0 else 1
    {
      RunStep(old(dir.files), table, urls, attempts, k);
      var t, r := ProcessUrl(dir, urls[k], table, attempts[k]);
      if r {
        raised := true;
      } else {
        transfers := transfers + t;
        k := k + 1;
      }
    }
    assert FirstRaise(urls, attempts) == k;
  }

  /** `prepare_data(stack_name, suffix, file_urls, table_name)` */
  method PrepareData(dir: ScratchDir, stackName: Option<string>, suffix: string,
                     fileUrls: seq<string>, tableName: string,
                     describe: string -> DescribeOutcome, mkdir: Mkdir, attempts: seq<Attempt>)
    returns (out: Outcome)
    requires dir.Valid()
    requires |attempts| == |fileUrls|
    modifies dir
    ensures dir.Valid()
    ensures out == PrepareSpec(old(dir.files), stackName, suffix, fileUrls, tableName, describe, mkdir, attempts)
    ensures out.NoStackOutputs? || out.NoBucketName? || out.SetupFailed? ==>
              dir.present == old(dir.present) && dir.files == old(dir.files)
    ensures out.Completed? ==> !dir.present && dir.files == {}
    ensures out.CleanupFailed? || out.UploadAborted? ==> dir.present && dir.files == out.leftover
  {
    var name := ResolveStackName(stackName, suffix);
    var outputs := GetCfnStackOutputs(name, describe);
    if outputs.None? || outputs.value == map[] {
      return NoStackOutputs;
    }
    var bucket := BucketOf(outputs.value);
    if bucket.None? {
      return NoBucketName(outputs.value.Keys);
    }

    var created := dir.Create(mkdir);
    if !created {
      return SetupFailed(bucket.value, mkdir.message);
    }
    var transfers, k := ProcessAll(dir, fileUrls, tableName, attempts);

    // finally: temp_dir exists here, so rmdir is attempted
    var removed := dir.Remove();
    if k < |fileUrls| {
      out := UploadAborted(bucket.value, transfers, dir.files, attempts[k].put.message);
    } else if removed {
      out := Completed(bucket.value, transfers);
    } else {
      out := CleanupFailed(bucket.value, transfers, dir.files);
    }
  }

  // ---------------------------------------------------------------------
  // Properties of the run

  /** The uploads of two consecutive batches are those of the first, then those of the second. */
  lemma {:induction false} TransfersAppend(table: string, u1: seq<string>, a1: seq<Attempt>,
                                           u2: seq<string>, a2: seq<Attempt>)
    requires |a1| == |u1| && |a2| == |u2|
    ensures Transfers(table, u1 + u2, a1 + a2) == Transfers(table, u1, a1) + Transfers(table, u2, a2)
    decreases |u1|
  {
    if u1 == [] {
      assert u1 + u2 == u2 && a1 + a2 == a2;
    } else {
      assert (u1 + u2)[1..] == u1[1..] + u2;
      assert (a1 + a2)[1..] == a1[1..] + a2;
      TransfersAppend(table, u1[1..], a1[1..], u2, a2);
    }
  }

  /** One more URL adds its own step at the end. */
  lemma TransfersSnoc(table: string, urls: seq<string>, attempts: seq<Attempt>, url: string, a: Attempt)
    requires |attempts| == |urls|
    ensures Transfers(table, urls + [url], attempts + [a])
            == Transfers(table, urls, attempts) + TransferStep(table, url, a)
  {
    TransfersAppend(table, urls, attempts, [url], [a]);
    assert Transfers(table, [url], [a]) == TransferStep(table, url, a) + Transfers(table, [], []);
  }

  /** One more URL applies its own step to the scratch set. */
  lemma {:induction false} ScratchAfterSnoc(files: set<string>, urls: seq<string>, attempts: seq<Attempt>,
                                            url: string, a: Attempt)
    requires |attempts| == |urls|
    ensures ScratchAfter(files, urls + [url], attempts + [a])
            == ScratchStep(ScratchAfter(files, urls, attempts), url, a)
    decreases |urls|
  {
    if urls == [] {
      assert urls + [url] == [url] && attempts + [a] == [a];
    } else {
      assert (urls + [url])[1..] == urls[1..] + [url];
      assert (attempts + [a])[1..] == attempts[1..] + [a];
      ScratchAfterSnoc(ScratchStep(files, urls[0], attempts[0]), urls[1..], attempts[1..], url, a);
    }
  }

  /** The loop of the driver, one URL further. */
  lemma RunStep(files: set<string>, table: string, urls: seq<string>, attempts: seq<Attempt>, i: nat)
    requires |attempts| == |urls| && i < |urls|
    ensures ScratchAfter(files, urls[..i + 1], attempts[..i + 1])
            == ScratchStep(ScratchAfter(files, urls[..i], attempts[..i]), urls[i], attempts[i])
    ensures Transfers(table, urls[..i + 1], attempts[..i + 1])
            == Transfers(table, urls[..i], attempts[..i]) + TransferStep(table, urls[i], attempts[i])
  {
    assert urls[..i + 1] == urls[..i] + [urls[i]];
    assert attempts[..i + 1] == attempts[..i] + [attempts[i]];
    ScratchAfterSnoc(files, urls[..i], attempts[..i], urls[i], attempts[i]);
    TransfersSnoc(table, urls[..i], attempts[..i], urls[i], attempts[i]);
  }

  /** URL `i` contributes its own step and nothing else: the other URLs' uploads do not depend on it. */
  lemma TransfersAround(table: string, urls: seq<string>, attempts: seq<Attempt>, i: nat)
    requires |attempts| == |urls| && i < |urls|
    ensures Transfers(table, urls, attempts)
            == Transfers(table, urls[..i], attempts[..i])
               + TransferStep(table, urls[i], attempts[i])
               + Transfers(table, urls[i + 1..], attempts[i + 1..])
  {
    assert urls == urls[..i] + urls[i..];
    assert attempts == attempts[..i] + attempts[i..];
    TransfersAppend(table, urls[..i], attempts[..i], urls[i..], attempts[i..]);
    assert urls[i..][1..] == urls[i + 1..];
    assert attempts[i..][1..] == attempts[i + 1..];
  }

  /** A failed download is skipped and the loop goes on with the next URL. */
  lemma FailedDownloadSkipped(table: string, urls: seq<string>, attempts: seq<Attempt>, i: nat)
    requires |attempts| == |urls| && i < |urls| && attempts[i].fetch.FetchFailed?
    ensures Transfers(table, urls, attempts)
            == Transfers(table, urls[..i], attempts[..i]) + Transfers(table, urls[i + 1..], attempts[i + 1..])
  {
    TransfersAround(table, urls, attempts, i);
  }

  /** Every attempted upload is of an input URL under the key derived from its filename. */
  lemma {:induction false} TransferKeys(table: string, urls: seq<string>, attempts: seq<Attempt>)
    requires |attempts| == |urls|
    ensures |Transfers(table, urls, attempts)| <= |urls|
    ensures forall t :: t in Transfers(table, urls, attempts) ==>
              t.url in urls && t.key == ObjectKey(table, LastSegment(t.url))
  {
    if urls != [] {
      TransferKeys(table, urls[1..], attempts[1..]);
      forall t | t in Transfers(table, urls, attempts)
        ensures t.url in urls && t.key == ObjectKey(table, LastSegment(t.url))
      {
        if t in Transfers(table, urls[1..], attempts[1..]) {
          assert t.url in urls[1..];
        }
      }
    }
  }

  /** When every download succeeds, each URL is uploaded in input order under its key. */
  lemma {:induction false} AllDownloadsInOrder(table: string, urls: seq<string>, attempts: seq<Attempt>)
    requires |attempts| == |urls|
    requires forall i :: 0 <= i < |urls| ==> attempts[i].fetch.Fetched? && Writable(LastSegment(urls[i]))
    ensures |Transfers(table, urls, attempts)| == |urls|
    ensures forall i :: 0 <= i < |urls| ==>
              Transfers(table, urls, attempts)[i]
              == Transfer(urls[i], ObjectKey(table, LastSegment(urls[i])), attempts[i].put.Uploaded?)
  {
    if urls != [] {
      AllDownloadsInOrder(table, urls[1..], attempts[1..]);
      var rest := Transfers(table, urls[1..], attempts[1..]);
      forall i | 1 <= i < |urls|
        ensures Transfers(table, urls, attempts)[i]
                == Transfer(urls[i], ObjectKey(table, LastSegment(urls[i])), attempts[i].put.Uploaded?)
      {
        assert Transfers(table, urls, attempts)[i] == rest[i - 1];
        assert urls[1..][i - 1] == urls[i] && attempts[1..][i - 1] == attempts[i];
      }
    }
  }

  /** Without a partly written download, the scratch directory only loses files. */
  lemma {:induction false} ScratchShrinks(files: set<string>, urls: seq<string>, attempts: seq<Attempt>)
    requires |attempts| == |urls|
    requires forall i :: 0 <= i < |urls| ==> attempts[i].fetch != FetchFailed(true)
    ensures ScratchAfter(files, urls, attempts) <= files
  {
    if urls != [] {
      assert attempts[0].fetch != FetchFailed(true);
      forall i | 0 <= i < |urls| - 1 ensures attempts[1..][i].fetch != FetchFailed(true) {
        assert attempts[1..][i] == attempts[i + 1];
      }
      ScratchShrinks(ScratchStep(files, urls[0], attempts[0]), urls[1..], attempts[1..]);
    }
  }

  /** A file left in the scratch directory was there before, or is a partly written download. */
  lemma {:induction false} LeftoverOrigin(files: set<string>, urls: seq<string>, attempts: seq<Attempt>, name: string)
    requires |attempts| == |urls|
    requires name in ScratchAfter(files, urls, attempts)
    ensures name in files ||
            exists i :: 0 <= i < |urls| && attempts[i].fetch == FetchFailed(true) && LastSegment(urls[i]) == name
    decreases |urls|
  {
    if urls != [] {
      var next := ScratchStep(files, urls[0], attempts[0]);
      LeftoverOrigin(next, urls[1..], attempts[1..], name);
      if name !in next {
        var i :| 0 <= i < |urls| - 1 && attempts[1..][i].fetch == FetchFailed(true) && LastSegment(urls[1..][i]) == name;
        assert attempts[i + 1] == attempts[1..][i] && urls[i + 1] == urls[1..][i];
      } else if name !in files {
        assert attempts[0].fetch == FetchFailed(true) && LastSegment(urls[0]) == name;
      }
    }
  }

  /**
   * The run stops before the scratch directory exactly when outputs or the
   * bucket name are missing, or `mkdir` raises; otherwise it uses that bucket.
   */
  lemma PrepareOutcomeCases(files: set<string>, stackName: Option<string>, suffix: string,
                            urls: seq<string>, table: string,
                            describe: string -> DescribeOutcome, mkdir: Mkdir, attempts: seq<Attempt>)
    requires |attempts| == |urls|
    ensures var out := PrepareSpec(files, stackName, suffix, urls, table, describe, mkdir, attempts);
            var outputs := OutputsOf(describe(ResolveStackName(stackName, suffix)));
            && (out.NoStackOutputs? <==> outputs == None || outputs == Some(map[]))
            && (out.NoBucketName? <==>
                  outputs.Some? && outputs.value != map[] &&
                  (BucketOutput !in outputs.value || outputs.value[BucketOutput] == ""))
            && (out.SetupFailed? <==>
                  outputs.Some? && BucketOf(outputs.value).Some? && mkdir.MkdirRaised?)
            && (!out.NoStackOutputs? && !out.NoBucketName? ==>
                  out.bucket == outputs.value[BucketOutput] && out.bucket != "")
  {
  }

  /**
   * Once the loop runs, it stops at the first upload that raises: the URLs
   * before it are processed as usual and its file stays behind. Without
   * such an upload every URL is processed.
   */
  lemma LoopOutcomeCases(files: set<string>, stackName: Option<string>, suffix: string,
                         urls: seq<string>, table: string,
                         describe: string -> DescribeOutcome, attempts: seq<Attempt>)
    requires |attempts| == |urls|
    requires var outputs := OutputsOf(describe(ResolveStackName(stackName, suffix)));
             outputs.Some? && BucketOf(outputs.value).Some?
    ensures var out := PrepareSpec(files, stackName, suffix, urls, table, describe, MkdirOk, attempts);
            var k := FirstRaise(urls, attempts);
            && (out.UploadAborted? <==> exists i :: 0 <= i < |urls| && Raises(urls[i], attempts[i]))
            && (out.UploadAborted? ==>
                  && out.transfers == Transfers(table, urls[..k], attempts[..k])
                  && out.leftover == ScratchAfter(files, urls[..k], attempts[..k]) + {LastSegment(urls[k])}
                  && out.cause == attempts[k].put.message)
            && (!out.UploadAborted? ==>
                  && (out.Completed? || out.CleanupFailed?)
                  && out.transfers == Transfers(table, urls, attempts)
                  && (out.Completed? <==> ScratchAfter(files, urls, attempts) == {}))
  {
    var k := FirstRaise(urls, attempts);
    if k == |urls| {
      assert urls[..k] == urls && attempts[..k] == attempts;
    }
  }

  /**
   * With a bucket name and an empty (or absent) scratch directory, a run
   * whose downloads never fail midway completes and removes the directory.
   */
  lemma CleanRunCompletes(stackName: Option<string>, suffix: string, urls: seq<string>, table: string,
                          describe: string -> DescribeOutcome, attempts: seq<Attempt>)
    requires |attempts| == |urls|
    requires var outputs := OutputsOf(describe(ResolveStackName(stackName, suffix)));
             outputs.Some? && BucketOf(outputs.value).Some?
    requires forall i :: 0 <= i < |urls| ==> attempts[i].fetch != FetchFailed(true)
    requires forall i :: 0 <= i < |urls| ==> !attempts[i].put.UploadRaised?
    ensures PrepareSpec({}, stackName, suffix, urls, table, describe, MkdirOk, attempts).Completed?
  {
    ScratchShrinks({}, urls, attempts);
    assert urls[..|urls|] == urls && attempts[..|attempts|] == attempts;
  }

  /** The default stack name used when none is given. */
  lemma DefaultStackName(suffix: string)
    ensures ResolveStackName(None, suffix) == "big-data-agent-infrastructure-" + suffix
    ensures ResolveStackName(Some(""), suffix) == "big-data-agent-infrastructure-" + suffix
  {
  }

  /**
   * One URL, stack outputs `{"BucketName": "wk-bucket"}`, table `nyc_taxi`:
   * the file is uploaded under its partitioned key and the run completes.
   */
  lemma ExampleRun(url: string, describe: string -> DescribeOutcome)
    requires url == "http://x/yellow_tripdata_2023-01.parquet"
    requires forall name :: describe(name) == Described([Stack(Some([Output("BucketName", "wk-bucket")]))])
    ensures PrepareSpec({}, None, "1", [url], "nyc_taxi", describe, MkdirOk, [Attempt(Fetched, Uploaded)])
            == Completed("wk-bucket", [Transfer(url,
                 "nyc_taxi/taxi_class=yellow/year=2023/month=01/yellow_tripdata_2023-01.parquet", true)])
  {
    ExampleObjectKey(url);
    var name := LastSegment(url);
    assert |name| == 31;
    var a := Attempt(Fetched, Uploaded);
    assert [url][1..] == [] && [a][1..] == [];
    assert FirstRaise([url], [a]) == 1;
    assert [url][..1] == [url] && [a][..1] == [a];
    assert Transfers("nyc_taxi", [url], [a]) == [Transfer(url, ObjectKey("nyc_taxi", name), true)];
    assert ScratchAfter({}, [url], [a]) == {};
    var outs := [Output("BucketName", "wk-bucket")];
    assert outs[..0] == [];
    var m := map["BucketName" := "wk-bucket"];
    assert Flatten(outs) == m;
    assert OutputsOf(describe(ResolveStackName(None, "1"))) == Some(m);
    assert BucketOf(m) == Some("wk-bucket");
  }
}
