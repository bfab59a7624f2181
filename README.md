# NYC taxi data set-up and agent-response unwrapping, in Dafny

This project models two small pieces of a set of AWS agent labs and proves
properties of them.

**The big-data set-up script** (`s3_big_data_setup.py`) reads a bucket name
from the outputs of a CloudFormation stack. For each URL of the NYC taxi
data set it then:

- downloads the file into the scratch directory `temp_downloads`;
- uploads it to S3 under a Hive-style partitioned key such as
  `nyc_taxi/taxi_class=yellow/year=2023/month=01/yellow_tripdata_2023-01.parquet`;
- deletes the local copy.

At the end it removes the scratch directory.

**The research agent's helper** (`invoke_agentcore_agent` in
`researcher_agent.py`) calls a deployed AgentCore agent. It joins the
streamed reply chunks and parses them as JSON. It then unwraps the
`result` → `content` → `[{"text": ...}]` shape, falling back to `str(...)`
at every level. Any exception becomes the reply
`"Error searching <agent type>: <message>"`.

Modules:

- `Wrappers`: `Option` and `Result`.
- `PartitionPrefix`: covers three things.
  - The filename matcher of `derive_s3_prefix_from_filename`, a hand parser
    for `^([^_]+)_tripdata_(\d{4})-(\d{2})\.parquet$`. Its language is
    stated independently as `Fits`.
  - The URL split `url.split('/')[-1]`.
  - The object key `f"{table}/{prefix}{filename}"`.
- `StackOutputs`: flattening stack outputs into a dictionary (a loop, as in
  the source), `get_cfn_stack_outputs` and `verify_bucket_exists`.
- `DataSetup`: `prepare_data`.
  - `prepare_data` never calls `verify_bucket_exists`: it takes the bucket
    name from the stack outputs and goes straight to the downloads. So
    `PrepareData` has no bucket check, and `VerifyBucketExists` stands on
    its own.
  - The scratch directory is a class whose set of file names the driver
    changes in place.
  - The download and upload outcomes for each URL are inputs.
  - The method is proved against the specification function `PrepareSpec`.
- `AgentResponse`: a JSON datatype, the chunk join, the `text_parts` loop,
  `str.join` with its `TypeError`, the unwrapping cascade and the helper
  itself as a method proved against `ReplySpec`.

The outside world is passed in as parameters:

- the CloudFormation `describe_stacks` call, as a function from stack name
  to outcome;
- the per-URL download and upload outcomes, as a sequence of `Attempt`s;
- the `head_bucket` outcome;
- the AgentCore runtime call;
- UTF-8 decoding of one chunk;
- `json.loads`;
- Python's `str()` of a non-string JSON value.

Where the docstring and the code disagree, the model follows the code:

- The docstring of `derive_s3_prefix_from_filename` (line 82) announces
  `{taxi_class}_tripdata/year=.../month=.../`. The code (line 90) builds
  `taxi_class={c}/year={y}/month={m}/`, and that is what is modelled.

Behaviour of the code that a reader of its names might not expect, and
that the model keeps:

- `[^_]+` cannot cross an underscore. So a class that contains one, such as
  `fhv_hv_tripdata_2023-01.parquet`, does not match and takes the `data/`
  fallback (`ExampleUnderscoreClass`). It is not captured as everything
  before `_tripdata_`.
- Python's `$` without MULTILINE also matches just before a final newline.
  So `yellow_tripdata_2023-01.parquet\n` matches with the same captures
  (`ParseFinalNewline`, `ExampleFinalNewline`).

Error paths of the code:

- A download that fails after the local file was opened leaves a partial
  file behind. `rmdir` in the `finally` block then raises because the
  directory is not empty, unless a later URL with the same filename
  downloads it again and removes it. The model records a non-empty
  directory at the end as the outcome `CleanupFailed` with the leftover
  names (`LeftoverOrigin`, `LoopOutcomeCases`).
- `upload_to_s3` catches only the exceptions of `upload_file` (line 103)
  and then returns `False`, which the loop ignores. `boto3.client('s3')`
  (line 99) runs before that `try`. An exception there leaves the loop
  with the downloaded file still in the directory: `unlink` (line 153) is
  skipped, and the `finally` block's `rmdir` (line 158) then raises. The
  model's upload outcome `UploadRaised` stands for that path. The run
  becomes `UploadAborted`, with the uploads of the URLs before it and the
  file left behind (`ProcessAll`, `LoopOutcomeCases`).
- `mkdir(exist_ok=True)` (line 137) is outside the `try` as well. If it
  raises (for instance because `temp_downloads` is a regular file), the run
  ends before any download as `SetupFailed`.

## Model

| member | source | states |
|---|---|---|
| PartitionPrefix.FullMatch | labs/strands-agents-big-data/utils/s3_big_data_setup.py:85-86 | specification function of the regular-expression match without the final-newline rule; its properties are stated by `FullMatchSound`, `FullMatchComplete` and `FullMatchIff` |
| PartitionPrefix.ParseFilename | labs/strands-agents-big-data/utils/s3_big_data_setup.py:85-86 | specification function of `re.match(pattern, filename)`; its properties are stated by `ParseIff` and `ParseFinalNewline` |
| PartitionPrefix.Chomp | labs/strands-agents-big-data/utils/s3_big_data_setup.py:85 | the text `$` may stand after: the filename without one final newline, or the whole filename |
| PartitionPrefix.RenderPrefix | labs/strands-agents-big-data/utils/s3_big_data_setup.py:90-95 | the f-string `taxi_class={c}/year={y}/month={m}/` for a match, the literal `data/` otherwise; its properties are stated by `RenderedMatchSpelling`, `RenderedMatchFrame` and `RenderedMatchSlashes` |
| PartitionPrefix.DerivePrefix | labs/strands-agents-big-data/utils/s3_big_data_setup.py:79-95 | specification function of `derive_s3_prefix_from_filename`; its properties are stated by `DerivePrefixOnMatch`, `DerivePrefixFallbackIff` and `MatchedPrefixShape` |
| PartitionPrefix.LastSegment | labs/strands-agents-big-data/utils/s3_big_data_setup.py:142 | specification function of `url.split('/')[-1]`; its properties are stated by `LastSegmentSpec` and `LastSegmentAfterSlash` |
| PartitionPrefix.ObjectKey | labs/strands-agents-big-data/utils/s3_big_data_setup.py:149 | specification function of the key f-string; its properties are stated by `ObjectKeyOnMatch` and `TransferKeys` |
| PartitionPrefix.FirstUnderscore | labs/strands-agents-big-data/utils/s3_big_data_setup.py:85 | the position where `[^_]+` must stop: no `_` before it, and a `_` at it unless it is the end |
| PartitionPrefix.FullMatchSound | labs/strands-agents-big-data/utils/s3_big_data_setup.py:85-86 | whatever the strict matcher captures fits the pattern: a non-empty `_`-free class, 4 digits, 2 digits, and the filename is exactly `c_tripdata_y-m.parquet` |
| PartitionPrefix.FullMatchComplete | labs/strands-agents-big-data/utils/s3_big_data_setup.py:85-86 | every decomposition of a string that fits the pattern is the one the matcher returns, so the captures are unique |
| PartitionPrefix.FullMatchIff | labs/strands-agents-big-data/utils/s3_big_data_setup.py:85-89 | the strict matcher matches exactly the strings in the pattern's language, with fitting captures |
| PartitionPrefix.FitsChomp | labs/strands-agents-big-data/utils/s3_big_data_setup.py:85 | a fitting filename ends in `t`, so the final-newline rule of `$` does not change it |
| PartitionPrefix.ParseIff | labs/strands-agents-big-data/utils/s3_big_data_setup.py:85-89 | `re.match` returns captures `(c, y, m)` if and only if the filename, or the filename without one final newline, fits the pattern with those captures |
| PartitionPrefix.ParseFinalNewline | labs/strands-agents-big-data/utils/s3_big_data_setup.py:85-86 | one newline ending the filename is skipped by `$`: the match is that of the filename without it |
| PartitionPrefix.DerivePrefixOnMatch | labs/strands-agents-big-data/utils/s3_big_data_setup.py:85-91 | a filename `c_tripdata_y-m.parquet` in the pattern gives exactly `taxi_class=c/year=y/month=m/` |
| PartitionPrefix.DerivePrefixFallbackIff | labs/strands-agents-big-data/utils/s3_big_data_setup.py:86-95 | the prefix is `data/` if and only if the filename (less a final newline) is outside the pattern's language |
| PartitionPrefix.RenderedMatchSpelling | labs/strands-agents-big-data/utils/s3_big_data_setup.py:90 | the three `key=value/` segments spell the f-string `taxi_class={c}/year={y}/month={m}/` |
| PartitionPrefix.RenderedMatchFrame | labs/strands-agents-big-data/utils/s3_big_data_setup.py:90-95 | a rendered match starts with `taxi_class=`, ends with `/` and can never be confused with `data/` |
| PartitionPrefix.SegmentSlashes | labs/strands-agents-big-data/utils/s3_big_data_setup.py:90 | a segment of a `/`-free key and value holds exactly one `/` |
| PartitionPrefix.RenderedMatchSlashes | labs/strands-agents-big-data/utils/s3_big_data_setup.py:90 | with `/`-free captures the prefix holds exactly three `/`, i.e. three partition levels |
| PartitionPrefix.CapturesSlashFree | labs/strands-agents-big-data/utils/s3_big_data_setup.py:85 | the captures of a `/`-free filename are `/`-free |
| PartitionPrefix.MatchedPrefixShape | labs/strands-agents-big-data/utils/s3_big_data_setup.py:85-91 | a matching filename (also one with a final newline) has a prefix that starts with `taxi_class=`, ends with `/`, is not `data/`, and has exactly three `/` when the filename has none |
| PartitionPrefix.CountCharAppend | labs/strands-agents-big-data/utils/s3_big_data_setup.py:90 | occurrence counts add up over a concatenation (used for the partition-level count) |
| PartitionPrefix.CountCharAbsent | labs/strands-agents-big-data/utils/s3_big_data_setup.py:90 | a character that does not occur is counted zero times |
| PartitionPrefix.LastSegmentSpec | labs/strands-agents-big-data/utils/s3_big_data_setup.py:142 | `url.split('/')[-1]` has no `/`, ends the URL, and is the whole URL or preceded by `/`: the longest `/`-free suffix |
| PartitionPrefix.LastSegmentAfterSlash | labs/strands-agents-big-data/utils/s3_big_data_setup.py:142 | the filename of `a/b` is `b` whenever `b` has no `/`, whatever `a` holds |
| PartitionPrefix.ObjectKeyOnMatch | labs/strands-agents-big-data/utils/s3_big_data_setup.py:148-149 | the key of a matching filename is `table/taxi_class=c/year=y/month=m/filename` |
| PartitionPrefix.DerivePrefixOfParts | labs/strands-agents-big-data/utils/s3_big_data_setup.py:85-91 | a filename built from valid parts gives their prefix, also with a final newline |
| PartitionPrefix.ExampleYellow | labs/strands-agents-big-data/utils/s3_big_data_setup.py:85-91 | `yellow_tripdata_2023-01.parquet` gives `taxi_class=yellow/year=2023/month=01/` |
| PartitionPrefix.ExampleMonthThirteen | labs/strands-agents-big-data/utils/s3_big_data_setup.py:85-91 | month `13` is accepted: only the digit count is checked |
| PartitionPrefix.ExampleZeroDate | labs/strands-agents-big-data/utils/s3_big_data_setup.py:85-91 | year `0000` and month `00` are accepted |
| PartitionPrefix.ExampleFinalNewline | labs/strands-agents-big-data/utils/s3_big_data_setup.py:85-91 | a filename ending in a newline still gives the partitioned prefix |
| PartitionPrefix.ExampleUnderscoreClass | labs/strands-agents-big-data/utils/s3_big_data_setup.py:85-95 | `fhv_hv_tripdata_2023-01.parquet` takes the `data/` fallback |
| PartitionPrefix.ExampleShortYear | labs/strands-agents-big-data/utils/s3_big_data_setup.py:85-95 | a two-digit year takes the fallback |
| PartitionPrefix.ExampleLongMonth | labs/strands-agents-big-data/utils/s3_big_data_setup.py:85-95 | a three-digit month takes the fallback |
| PartitionPrefix.ExampleUpperCaseExtension | labs/strands-agents-big-data/utils/s3_big_data_setup.py:85-95 | `.PARQUET` takes the fallback: the match is case-sensitive |
| PartitionPrefix.ExampleTrailingText | labs/strands-agents-big-data/utils/s3_big_data_setup.py:85-95 | text after `.parquet` takes the fallback: the pattern is anchored |
| PartitionPrefix.ExampleNoClass | labs/strands-agents-big-data/utils/s3_big_data_setup.py:85-95 | the empty filename and one without `_` take the fallback |
| PartitionPrefix.ExampleObjectKey | labs/strands-agents-big-data/utils/s3_big_data_setup.py:142-149 | the URL `http://x/yellow_tripdata_2023-01.parquet` and table `nyc_taxi` give the key `nyc_taxi/taxi_class=yellow/year=2023/month=01/yellow_tripdata_2023-01.parquet` |
| StackOutputs.Stack.OutputList | labs/strands-agents-big-data/utils/s3_big_data_setup.py:24 | `stack.get('Outputs', [])`: the stack's output records, or none when it has no `Outputs` |
| StackOutputs.Flatten | labs/strands-agents-big-data/utils/s3_big_data_setup.py:25-30 | specification function of the dictionary built from the outputs; its properties are stated by `FlattenKeys`, `FlattenLastWins` and `DuplicateKeyLaterWins` |
| StackOutputs.OutputsOf | labs/strands-agents-big-data/utils/s3_big_data_setup.py:14-41 | specification function of what `get_cfn_stack_outputs` returns for a `describe_stacks` outcome; its properties are stated by `GetCfnStackOutputs` |
| StackOutputs.FlattenOutputs | labs/strands-agents-big-data/utils/s3_big_data_setup.py:25-30 | the loop builds the dictionary of the specification function `Flatten` |
| StackOutputs.FlattenKeys | labs/strands-agents-big-data/utils/s3_big_data_setup.py:27-28 | a key is in the dictionary if and only if some output record has it |
| StackOutputs.FlattenLastWins | labs/strands-agents-big-data/utils/s3_big_data_setup.py:27-28 | a key maps to the value of its last output record |
| StackOutputs.DuplicateKeyLaterWins | labs/strands-agents-big-data/utils/s3_big_data_setup.py:28 | of two records with the same key only the later value is kept |
| StackOutputs.GetCfnStackOutputs | labs/strands-agents-big-data/utils/s3_big_data_setup.py:14-41 | `None` exactly when the call failed or no stack came back; otherwise the keys are those of the first stack's outputs (none when it has no `Outputs`) |
| StackOutputs.VerifyBucketExists | labs/strands-agents-big-data/utils/s3_big_data_setup.py:43-59 | true exactly on success; 404 and 403 are told apart; any other client error is `False`; an exception that is not a client error propagates |
| DataSetup.ScratchDir.constructor | labs/strands-agents-big-data/utils/s3_big_data_setup.py:136 | a scratch directory that is present or absent, holding the given files, absent only when empty |
| DataSetup.ScratchDir.Create | labs/strands-agents-big-data/utils/s3_big_data_setup.py:137 | `mkdir(exist_ok=True)` makes the directory present and keeps its files, or raises and changes nothing |
| DataSetup.ScratchDir.Write | labs/strands-agents-big-data/utils/s3_big_data_setup.py:68 | opening a file for writing adds its name to the directory |
| DataSetup.ScratchDir.Unlink | labs/strands-agents-big-data/utils/s3_big_data_setup.py:153 | `unlink` removes exactly that name |
| DataSetup.ScratchDir.Remove | labs/strands-agents-big-data/utils/s3_big_data_setup.py:157-158 | `rmdir` succeeds exactly when the directory is empty, and otherwise changes nothing |
| DataSetup.ResolveStackName | labs/strands-agents-big-data/utils/s3_big_data_setup.py:115-116 | a non-empty given name is used; a missing or empty one becomes `big-data-agent-infrastructure-<suffix>` |
| DataSetup.DownloadFile | labs/strands-agents-big-data/utils/s3_big_data_setup.py:61-77 | true exactly when the body was written to a regular file; a failure after opening leaves the file behind |
| DataSetup.BucketOf | labs/strands-agents-big-data/utils/s3_big_data_setup.py:127-128 | `stack_outputs.get('BucketName')` when it is a non-empty string, otherwise nothing, which stops the run |
| DataSetup.Writable | labs/strands-agents-big-data/utils/s3_big_data_setup.py:143 | a filename for which `temp_dir / filename` is a path that `open(local_path, 'wb')` (line 68) can create as a regular file: not empty, `.` or `..` |
| DataSetup.ScratchStep | labs/strands-agents-big-data/utils/s3_big_data_setup.py:141-153 | specification function of one loop iteration's effect on the scratch directory; its properties are stated by `ProcessUrl`, `ScratchShrinks` and `LeftoverOrigin` |
| DataSetup.TransferStep | labs/strands-agents-big-data/utils/s3_big_data_setup.py:141-150 | specification function of the upload one loop iteration performs; its properties are stated by `ProcessUrl`, `FailedDownloadSkipped` and `TransferKeys` |
| DataSetup.ScratchAfter | labs/strands-agents-big-data/utils/s3_big_data_setup.py:141-153 | specification function of the scratch directory after a run of iterations; its properties are stated by `ScratchAfterSnoc`, `ScratchShrinks` and `LeftoverOrigin` |
| DataSetup.Transfers | labs/strands-agents-big-data/utils/s3_big_data_setup.py:141-150 | specification function of the uploads of a run of iterations; its properties are stated by `TransfersAppend`, `TransfersSnoc`, `TransfersAround`, `TransferKeys` and `AllDownloadsInOrder` |
| DataSetup.Raises | labs/strands-agents-big-data/utils/s3_big_data_setup.py:97-99 | specification predicate of an iteration whose `upload_to_s3` raises before its `try`; its properties are stated by `ProcessUrl` and `FirstRaise` |
| DataSetup.FirstRaise | labs/strands-agents-big-data/utils/s3_big_data_setup.py:97-99 | the position where the loop is left: no upload before it raises, and the one at it does unless it is the end |
| DataSetup.PrepareSpec | labs/strands-agents-big-data/utils/s3_big_data_setup.py:110-161 | specification function of `prepare_data`; its properties are stated by `PrepareData`, `PrepareOutcomeCases`, `LoopOutcomeCases` and `CleanRunCompletes` |
| DataSetup.ProcessUrl | labs/strands-agents-big-data/utils/s3_big_data_setup.py:97-153 | one iteration of the loop takes the scratch directory and the uploads one step, as `ScratchStep` and `TransferStep` say, and reports whether the upload raised; then it adds the file and skips `unlink` |
| DataSetup.ProcessAll | labs/strands-agents-big-data/utils/s3_big_data_setup.py:97-153 | the loop stops at `FirstRaise`. It performs the uploads of the URLs before it, and leaves their scratch state plus, on a raise, the file of the raising URL |
| DataSetup.PrepareData | labs/strands-agents-big-data/utils/s3_big_data_setup.py:97-161 | the result is `PrepareSpec`. A stop before the loop, or a raising `mkdir`, leaves the directory untouched. A completed run leaves it removed and empty. A failed clean-up or a raising upload leaves exactly the leftover files |
| DataSetup.TransfersAppend | labs/strands-agents-big-data/utils/s3_big_data_setup.py:141-153 | the uploads of two consecutive batches of URLs are those of the first batch followed by those of the second |
| DataSetup.TransfersSnoc | labs/strands-agents-big-data/utils/s3_big_data_setup.py:141-153 | one more URL appends its own upload, if any, at the end |
| DataSetup.ScratchAfterSnoc | labs/strands-agents-big-data/utils/s3_big_data_setup.py:141-153 | one more URL applies its own step to the scratch directory |
| DataSetup.RunStep | labs/strands-agents-big-data/utils/s3_big_data_setup.py:141-153 | the state after `i+1` URLs is the state after `i` URLs, one step further |
| DataSetup.TransfersAround | labs/strands-agents-big-data/utils/s3_big_data_setup.py:141-153 | URL `i` contributes only its own upload, between those of the URLs before and after it |
| DataSetup.FailedDownloadSkipped | labs/strands-agents-big-data/utils/s3_big_data_setup.py:146 | a failed download is skipped and the loop goes on with the next URL |
| DataSetup.TransferKeys | labs/strands-agents-big-data/utils/s3_big_data_setup.py:141-150 | at most one upload per URL, and every upload is of an input URL under `ObjectKey(table, filename)` |
| DataSetup.AllDownloadsInOrder | labs/strands-agents-big-data/utils/s3_big_data_setup.py:141-153 | when every download succeeds, upload `i` is URL `i` under its key, with its upload result |
| DataSetup.ScratchShrinks | labs/strands-agents-big-data/utils/s3_big_data_setup.py:146-153 | without a partly written download the loop only removes files from the scratch directory |
| DataSetup.LeftoverOrigin | labs/strands-agents-big-data/utils/s3_big_data_setup.py:141-158 | a file left at the end was there before, or is the partial file of a failed download |
| DataSetup.PrepareOutcomeCases | labs/strands-agents-big-data/utils/s3_big_data_setup.py:121-137 | no outputs (or none at all) stops the run; a missing or empty `BucketName` stops it; a raising `mkdir` stops it; otherwise the run uses that bucket |
| DataSetup.LoopOutcomeCases | labs/strands-agents-big-data/utils/s3_big_data_setup.py:97-158 | with a bucket, the run is `UploadAborted` if and only if some upload raises. It then holds the uploads before the first raise, the scratch state plus the raising URL's file, and the exception's message. Otherwise it holds all of `Transfers` and completes exactly when the directory ends empty |
| DataSetup.CleanRunCompletes | labs/strands-agents-big-data/utils/s3_big_data_setup.py:136-158 | from an absent or empty scratch directory, with a bucket, a working `mkdir`, no partial download and no raising upload, the run completes |
| DataSetup.DefaultStackName | labs/strands-agents-big-data/utils/s3_big_data_setup.py:115-116 | the default stack name is `big-data-agent-infrastructure-` followed by the suffix |
| DataSetup.ExampleRun | labs/strands-agents-big-data/utils/s3_big_data_setup.py:110-161 | one yellow-taxi URL with bucket `wk-bucket` and table `nyc_taxi` is uploaded under its partitioned key, and the run completes |
| AgentResponse.RequestFor | labs/strands-agents/researcher_agent.py:31-37 | the arguments of `invoke_agent_runtime`: the ARN, qualifier `DEFAULT`, the prompt, and JSON content type and accept |
| AgentResponse.ErrorReply | labs/strands-agents/researcher_agent.py:60 | the reply `Error searching {agent_type}: {message}` for an exception |
| AgentResponse.ChunksOf | labs/strands-agents/researcher_agent.py:39 | `response.get("response", [])`: the stream's chunks, or none when the response has no stream |
| AgentResponse.DecodeAll | labs/strands-agents/researcher_agent.py:39 | specification function of the chunk join; its properties are stated by `DecodeAllAppend`, `DecodeOne`, `DecodeAllOkIff` and `DecodeAllFirstError` |
| AgentResponse.DecodeAllAppend | labs/strands-agents/researcher_agent.py:39 | joining two runs of chunks: the first error wins, otherwise the decoded texts are concatenated in order |
| AgentResponse.DecodeOne | labs/strands-agents/researcher_agent.py:39 | a single chunk gives its own decoding |
| AgentResponse.DecodeAllOkIff | labs/strands-agents/researcher_agent.py:39 | the join succeeds if and only if every chunk decodes |
| AgentResponse.DecodeAllFirstError | labs/strands-agents/researcher_agent.py:39 | a failed join reports the error of the first chunk that does not decode |
| AgentResponse.IsTextItem | labs/strands-agents/researcher_agent.py:49 | the test `isinstance(item, dict) and 'text' in item` |
| AgentResponse.TextPart | labs/strands-agents/researcher_agent.py:49-50 | what one item appends to `text_parts`: its `text` value if it passes that test, nothing otherwise; its properties are stated by `TextPartsOne` |
| AgentResponse.TextParts | labs/strands-agents/researcher_agent.py:47-50 | specification function of the `text_parts` list; its properties are stated by `TextPartsAppend`, `TextPartsOne`, `TextPartsSkip`, `TextPartsMembers`, `NoTextParts` and `CollectTextParts` |
| AgentResponse.TextPartsAppend | labs/strands-agents/researcher_agent.py:47-50 | the parts of two consecutive runs of items are those of the first run followed by those of the second |
| AgentResponse.TextPartsOne | labs/strands-agents/researcher_agent.py:49-50 | one item contributes its `text` if it is an object with `text`, and nothing otherwise |
| AgentResponse.TextPartsSkip | labs/strands-agents/researcher_agent.py:48-50 | other items are skipped wherever they stand |
| AgentResponse.TextPartsMembers | labs/strands-agents/researcher_agent.py:48-50 | a value is a part if and only if it is the `text` of some object item |
| AgentResponse.NoTextParts | labs/strands-agents/researcher_agent.py:47-50 | with no object item carrying `text` there are no parts |
| AgentResponse.CollectTextParts | labs/strands-agents/researcher_agent.py:47-50 | the `for` loop collects exactly `TextParts` of the items |
| AgentResponse.Decimal | labs/strands-agents/researcher_agent.py:51 | the index in the join's error message is a non-empty decimal numeral without a leading zero |
| AgentResponse.DecimalRoundTrip | labs/strands-agents/researcher_agent.py:51 | that numeral consists of digits and denotes the index |
| AgentResponse.FirstNonString | labs/strands-agents/researcher_agent.py:51 | the position where `str.join` stops: every part before it is a string, and the part at it is not |
| AgentResponse.ConcatStrsAppend | labs/strands-agents/researcher_agent.py:51 | joining string parts is concatenation in order |
| AgentResponse.TypeName | labs/strands-agents/researcher_agent.py:51 | the name of the Python type a JSON value becomes (`NoneType`, `bool`, `int`, `float`, `str`, `list`, `dict`), as the join's error message names it |
| AgentResponse.JoinTypeError | labs/strands-agents/researcher_agent.py:51 | CPython's `str.join` message `sequence item {i}: expected str instance, {type} found`; its properties are stated by `ExampleJoinTypeError` and `DecimalRoundTrip` |
| AgentResponse.JoinText | labs/strands-agents/researcher_agent.py:51 | specification function of `''.join(text_parts)`; its properties are stated by `JoinTextOkIff`, `ConcatStrsAppend` and `ExampleJoinTypeError` |
| AgentResponse.JoinTextOkIff | labs/strands-agents/researcher_agent.py:51 | `''.join(text_parts)` succeeds if and only if every part is a string; otherwise it raises the `TypeError` for the first part that is not |
| AgentResponse.Unwrap | labs/strands-agents/researcher_agent.py:41-57 | specification function of the unwrapping cascade; its properties are stated by `ContentArrayReply`, `ContentArrayReplyAnyKeys`, `EmptyTextReply`, `NonStringTextRaises`, `NonArrayContentReply`, `ResultWithoutContentReply`, `TopLevelReply` and `UnwrapRaisesOnlyInJoin` |
| AgentResponse.StrOf | labs/strands-agents/researcher_agent.py:53-57 | specification function of `str(...)` of a JSON value, a string coming back as itself; its properties are stated by `NonArrayContentReply` |
| AgentResponse.ReplySpec | labs/strands-agents/researcher_agent.py:28-60 | specification function of the helper's reply; its properties are stated by `InvokeAgentcoreAgent`, `ErrorReplies`, `ParsedReply` and `MissingStreamParsesEmpty` |
| AgentResponse.InvokeAgentcoreAgent | labs/strands-agents/researcher_agent.py:28-60 | the helper returns `ReplySpec` of what the runtime call returned for its ARN and prompt |
| AgentResponse.ContentArrayReply | labs/strands-agents/researcher_agent.py:41-51 | `{"result": {"content": [...]}}` with string texts gives the in-order concatenation of the texts of the object items with `text` |
| AgentResponse.ContentArrayReplyAnyKeys | labs/strands-agents/researcher_agent.py:41-51 | the same when the objects carry other keys too |
| AgentResponse.EmptyTextReply | labs/strands-agents/researcher_agent.py:41-51 | a content array without such items gives `""`, whatever other keys the objects hold |
| AgentResponse.NonStringTextRaises | labs/strands-agents/researcher_agent.py:41-51 | a non-string `text` makes the join raise the `TypeError` naming its position among the parts and its type, whatever other keys the objects hold |
| AgentResponse.ExampleJoinTypeError | labs/strands-agents/researcher_agent.py:51 | an integer first part raises `sequence item 0: expected str instance, int found` |
| AgentResponse.NonArrayContentReply | labs/strands-agents/researcher_agent.py:41-53 | a non-array `content` gives `str(content)`, and a string content comes back as itself, whatever other keys the objects hold |
| AgentResponse.ResultWithoutContentReply | labs/strands-agents/researcher_agent.py:41-55 | a `result` that is not an object with `content` gives `str(result)`, whatever other keys the top-level object holds |
| AgentResponse.TopLevelReply | labs/strands-agents/researcher_agent.py:56-57 | a parsed value that is not an object with `result` gives `str` of that value |
| AgentResponse.UnwrapRaisesOnlyInJoin | labs/strands-agents/researcher_agent.py:41-57 | the cascade can only fail in the content-array branch, and only when some part is not a string |
| AgentResponse.ErrorReplies | labs/strands-agents/researcher_agent.py:59-60 | a failing call, chunk decoding or parse gives exactly `"Error searching " + agent_type + ": " + message` |
| AgentResponse.ParsedReply | labs/strands-agents/researcher_agent.py:40-60 | a response that parses gives the unwrapped text, or the error reply carrying the join's message |
| AgentResponse.MissingStreamParsesEmpty | labs/strands-agents/researcher_agent.py:39-40 | a response without a `response` stream is parsed from the empty text |

## Left out

- Console output: every `print`, the emoji messages and the list of
  available outputs are not modelled. The run records the available keys in
  the outcome instead.
- The HTTP download (`requests`, `raise_for_status`, 8192-byte chunks) and
  the file size in MB, which is floating point and only printed. A download
  is an input outcome: it succeeds, fails before opening the file, or fails
  after opening it.
- The boto3 clients (`describe_stacks`, `head_bucket`, `upload_file`,
  `invoke_agent_runtime`). Their results are inputs. An upload that returns
  `False` is recorded and, as in the source, the loop goes on. An upload
  whose client creation raises ends the loop (`UploadRaised`).
- StackOutputs.GetCfnStackOutputs: output records always carry both
  `OutputKey` and `OutputValue`. A record missing either makes the source
  raise `KeyError`, which it catches and turns into `None`. That path is not
  modelled.
- StackOutputs.GetCfnStackOutputs: whether a `ClientError` says
  "does not exist" only changes what is printed. Every failure is one
  `DescribeFailed` outcome.
- StackOutputs.VerifyBucketExists: a client error without an `Error.Code`
  (a `KeyError` in the source) is not modelled. The bucket name is not a
  parameter, because only the outcome of the call matters.
- PartitionPrefix.ParseFilename: `\d` is read as the ASCII digits. Python's
  `re` on `str` also accepts other Unicode decimal digits, and the model
  has no Unicode character tables.
- DataSetup.ScratchDir: the directory is modelled as the set of names of
  the regular files in it. These are not modelled:
  - subdirectories of `temp_downloads`;
  - another process changing the directory;
  - `temp_dir.exists()` being false in the `finally` block, which only
    happens if someone else removed the directory.
- DataSetup.PrepareData: the exception that `rmdir` raises on a non-empty
  directory is returned as the outcome `CleanupFailed`. The closing prints
  are then skipped, as in the source.
- DataSetup.PrepareData: after a raising upload, the exception that leaves
  `prepare_data` is the `OSError` of `rmdir`, with the upload's exception
  as its context. The outcome `UploadAborted` keeps the upload's message as
  its `cause` and the files left behind. The `OSError` text is not modelled.
- DataSetup.PrepareData: an exception raised by `unlink` itself is not
  modelled.
- AgentResponse: these are parameters and are not interpreted:
  - UTF-8 decoding of a chunk;
  - `json.loads`;
  - the text `str()` gives for dictionaries, lists, numbers, booleans and
    `None`.
- AgentResponse: the event stream `response["response"]` is given as a
  complete sequence of chunks. An exception raised while iterating it is
  not modelled separately. It can only be imitated by a `decode` that
  fails on the chunk where the stream broke.
- AgentResponse: `json.dumps({"prompt": query})` is not rendered. The
  request carries the prompt itself.
- AgentResponse: an exception raised by `str()` itself (for instance for
  very deeply nested values) is not modelled.
- AgentResponse.StrOf: JSON objects are modelled as maps. The key order
  that `json.loads` keeps and `str()` prints is therefore lost. Two objects
  that differ only in key order, such as `{"a": 1, "b": 2}` and
  `{"b": 2, "a": 1}` under `result`, are the same `Json` and get the same
  `str` text, where Python prints each in its own order.
- AgentResponse: JSON floats are kept as literal text, because floating
  point is not modelled.
- `researcher_agent.py` outside the helper is not part of this model:
  - the module-level environment lookups, the client and the model set-up;
  - the `@tool` wrappers `search_knowledge_base` and `search_web`;
  - the `Agent` and the AgentCore entrypoint.
- The other lab files do not belong to the modelled core and are not part of
  this model: the knowledge-base creation, the CloudFormation deployment, the
  other big-data utilities and the resume-extraction tool.
