/**
 * The two infrastructure queries of the set-up script:
 * `get_cfn_stack_outputs`, which flattens the output list of a
 * CloudFormation stack into a name-to-value map, and
 * `verify_bucket_exists`, which reads the outcome of an S3 `head_bucket`.
 * The SDK calls themselves are abstract outcomes.
 */
module StackOutputs {
  import opened Wrappers

  /** One element of a stack's `Outputs` list. */
  datatype Output = Output(outputKey: string, outputValue: string)

  /** One element of `Stacks`; `outputs` is `None` when the stack has no `Outputs` entry. */
  datatype Stack = Stack(outputs: Option<seq<Output>>)
  {
    /** `stack.get('Outputs', [])` */
    function OutputList(): seq<Output>
    {
      match outputs
      case Some(outs) => outs
      case None => []
    }
  }

  /** What `describe_stacks` did: answered with a list of stacks, or raised. */
  datatype DescribeOutcome = Described(stacks: seq<Stack>) | DescribeFailed(message: string)

  /** The output map after entering `outs` in order; a later key overwrites an earlier one. */
  function Flatten(outs: seq<Output>): map<string, string>
  {
    if outs == [] then map[]
    else
      var last := outs[|outs| - 1];
      Flatten(outs[..|outs| - 1])[last.outputKey := last.outputValue]
  }

  /** The loop that fills `output_dict`. */
  method FlattenOutputs(outs: seq<Output>) returns (d: map<string, string>)
    ensures d == Flatten(outs)
  {
    d := map[];
    var i := 0;
    while i < |outs|
      invariant 0 <= i <= |outs|
      invariant d == Flatten(outs[..i])
    {
      assert outs[..i + 1][..i] == outs[..i];
      d := d[outs[i].outputKey := outs[i].outputValue];
      i := i + 1;
    }
    assert outs[..|outs|] == outs;
  }

  /** The keys of the flattened map are exactly the keys of the list. */
  lemma {:induction false} FlattenKeys(outs: seq<Output>, k: string)
    ensures k in Flatten(outs) <==> exists i :: 0 <= i < |outs| && outs[i].outputKey == k
  {
    if outs != [] {
      var init := outs[..|outs| - 1];
      FlattenKeys(init, k);
      if k in Flatten(init) {
        var i :| 0 <= i < |init| && init[i].outputKey == k;
        assert outs[i].outputKey == k;
      }
      if exists i :: 0 <= i < |outs| && outs[i].outputKey == k {
        var i :| 0 <= i < |outs| && outs[i].outputKey == k;
        if i < |init| {
          assert init[i].outputKey == k;
        }
      }
    }
  }

  /** An output that no later output overrides gives the value of its key. */
  lemma {:induction false} FlattenLastWins(outs: seq<Output>, i: nat)
    requires i < |outs|
    requires forall j :: i < j < |outs| ==> outs[j].outputKey != outs[i].outputKey
    ensures outs[i].outputKey in Flatten(outs)
    ensures Flatten(outs)[outs[i].outputKey] == outs[i].outputValue
  {
    var init := outs[..|outs| - 1];
    if i < |outs| - 1 {
      assert init[i] == outs[i];
      FlattenLastWins(init, i);
    }
  }

  /** A duplicate output key: the later value is the one kept. */
  lemma DuplicateKeyLaterWins(a: Output, b: Output)
    requires a.outputKey == b.outputKey
    ensures Flatten([a, b]) == map[b.outputKey := b.outputValue]
  {
    assert [a, b][..1] == [a];
    assert [a][..0] == [];
    assert Flatten([a]) == map[a.outputKey := a.outputValue];
    assert Flatten([a, b]) == map[a.outputKey := a.outputValue][b.outputKey := b.outputValue];
  }

  /**
   * What `get_cfn_stack_outputs` returns: `None` when the call raised or
   * `Stacks` is empty, otherwise the flattened outputs of the first stack.
   */
  function OutputsOf(response: DescribeOutcome): Option<map<string, string>>
  {
    match response
    case DescribeFailed(_) => None
    case Described(stacks) =>
      if stacks == [] then None
      else Some(Flatten(stacks[0].OutputList()))
  }

  /** `get_cfn_stack_outputs(stack_name)` over the answer `describe` gives for a name. */
  method GetCfnStackOutputs(stackName: string, describe: string -> DescribeOutcome)
    returns (r: Option<map<string, string>>)
    ensures r == OutputsOf(describe(stackName))
    ensures r.None? <==> describe(stackName).DescribeFailed? || describe(stackName).stacks == []
    ensures r.Some? ==> forall k :: k in r.value <==>
      exists i :: 0 <= i < |describe(stackName).stacks[0].OutputList()| &&
                  describe(stackName).stacks[0].OutputList()[i].outputKey == k
  {
    var response := describe(stackName);
    match response {
      case DescribeFailed(_) =>
        r := None;
      case Described(stacks) =>
        if stacks == [] {
          r := None;
        } else {
          var outs := stacks[0].OutputList();
          var d := FlattenOutputs(outs);
          forall k ensures k in d <==> exists i :: 0 <= i < |outs| && outs[i].outputKey == k {
            FlattenKeys(outs, k);
          }
          r := Some(d);
        }
    }
  }

  // ---------------------------------------------------------------------
  // verify_bucket_exists

  /**
   * What `head_bucket` did: succeeded, raised a `ClientError` with an error
   * code, or raised some other exception, which the function does not catch.
   */
  datatype HeadBucketOutcome = HeadOk | HeadClientError(code: string) | HeadRaised(message: string)

  /** The status the function reports: found, `404`, `403`, or another error code. */
  datatype BucketStatus = Found | NoSuchBucket | AccessDenied | AccessError(code: string)
  {
    /** The boolean the function returns. */
    predicate Exists() { Found? }
  }

  /** `verify_bucket_exists`: `Err` when an exception other than `ClientError` escapes. */
  function VerifyBucketExists(outcome: HeadBucketOutcome): (r: Result<BucketStatus, string>)
    ensures r.Err? <==> outcome.HeadRaised?
    ensures r.Ok? ==> (r.value.Exists() <==> outcome.HeadOk?)
    ensures r == Ok(NoSuchBucket) <==> outcome == HeadClientError("404")
    ensures r == Ok(AccessDenied) <==> outcome == HeadClientError("403")
  {
    match outcome
    case HeadOk => Ok(Found)
    case HeadClientError(code) =>
      if code == "404" then Ok(NoSuchBucket)
      else if code == "403" then Ok(AccessDenied)
      else Ok(AccessError(code))
    case HeadRaised(message) => Err(message)
  }
}
