/**
 * Finding the export file of a job (`get_key_from_job_id`) and naming the
 * bursar file after it (the key rewrite in `lambda_handler`).
 */
module SourceKeys {
  import opened Wrappers
  import opened Strings

  /** The `KeyError`s `get_key_from_job_id` raises, with the text the source gives them. */
  datatype KeyError = NoFiles(bucket: string, prefix: string) | MultipleFiles(bucket: string, prefix: string) {
    function Message(): (text: string)
      ensures StartsWith(text, if NoFiles? then "No files" else "multiple files")
      ensures |text| > |prefix| + 1 && text[|text| - |prefix| - 1..] == prefix + "'"
    {
      var lead := if NoFiles? then "No files" else "multiple files";
      var middle := " retrieved from bucket '" + bucket + "'" + "with prefix '";
      var quoted := prefix + "'";
      assert (lead + (middle + quoted))[..|lead|] == lead;
      assert (lead + (middle + quoted))[|lead| + |middle|..] == quoted;
      lead + (middle + quoted)
    }
  }

  /** The keys the storage listing returns for a prefix: those of the bucket that start with it, in bucket order. */
  function KeysWithPrefix(bucketKeys: seq<string>, prefix: string): (listed: seq<string>)
    ensures forall k <- listed :: k in bucketKeys && StartsWith(k, prefix)
    ensures forall k <- bucketKeys :: StartsWith(k, prefix) ==> k in listed
  {
    if bucketKeys == [] then []
    else
      var rest := KeysWithPrefix(bucketKeys[1..], prefix);
      if StartsWith(bucketKeys[0], prefix) then [bucketKeys[0]] + rest else rest
  }

  /** `get_key_from_job_id` on the listing for `prefix`: the only key listed, or an error. */
  function GetKeyFromJobId(listing: seq<string>, bucket: string, prefix: string): (r: Result<string, KeyError>)
    ensures r.Success? <==> |listing| == 1
    ensures r.Success? ==> listing == [r.value]
    ensures listing == [] ==> r == Failure(NoFiles(bucket, prefix))
    ensures |listing| > 1 ==> r == Failure(MultipleFiles(bucket, prefix))
  {
    if listing == [] then Failure(NoFiles(bucket, prefix))
    else
      var sourceKey := listing[0];
      if |listing| > 1 then Failure(MultipleFiles(bucket, prefix))
      else Success(sourceKey)
  }

  /** The choice never depends on the order of the listing: with one candidate it is taken,
      with several none is preferred. */
  lemma SelectionIgnoresOrder(a: seq<string>, b: seq<string>, bucket: string, prefix: string)
    requires multiset(a) == multiset(b)
    ensures GetKeyFromJobId(a, bucket, prefix) == GetKeyFromJobId(b, bucket, prefix)
  {
    assert |a| == |multiset(a)| == |multiset(b)| == |b|;
    if |a| == 1 {
      assert b[0] in multiset(b);
      assert multiset(a) == multiset{a[0]};
      assert b == [b[0]];
    }
  }

  /** Over a bucket of distinct keys, the job's export is resolved exactly when one key of the
      bucket starts with the prefix, and then it is that key. */
  lemma ResolvesUniqueMatch(bucketKeys: seq<string>, bucket: string, prefix: string, key: string)
    requires Distinct(bucketKeys)
    ensures GetKeyFromJobId(KeysWithPrefix(bucketKeys, prefix), bucket, prefix) == Success(key)
            <==> key in bucketKeys && StartsWith(key, prefix)
                 && forall k <- bucketKeys :: StartsWith(k, prefix) ==> k == key
  {
    ListingDistinct(bucketKeys, prefix);
    var listed := KeysWithPrefix(bucketKeys, prefix);
    if key in bucketKeys && StartsWith(key, prefix) && forall k <- bucketKeys :: StartsWith(k, prefix) ==> k == key {
      assert key in listed;
      forall i | 0 <= i < |listed| ensures listed[i] == key {
        assert listed[i] in listed;
      }
      DistinctFirstTwo(listed);
    }
  }

  /** No key appears twice (keys of a bucket are unique). */
  predicate Distinct(keys: seq<string>)
  {
    forall i, j :: 0 <= i < j < |keys| ==> keys[i] != keys[j]
  }

  lemma DistinctFirstTwo(keys: seq<string>)
    ensures Distinct(keys) && |keys| >= 2 ==> keys[0] != keys[1]
  {
  }

  /** The listing of a bucket of distinct keys has no repeated key. */
  lemma {:induction false} ListingDistinct(bucketKeys: seq<string>, prefix: string)
    requires Distinct(bucketKeys)
    ensures Distinct(KeysWithPrefix(bucketKeys, prefix))
  {
    if bucketKeys != [] {
      var tail := bucketKeys[1..];
      ListingDistinct(tail, prefix);
      assert bucketKeys[0] !in tail by {
        forall j | 0 <= j < |tail| ensures tail[j] != bucketKeys[0] {
          assert tail[j] == bucketKeys[j + 1];
        }
      }
      var rest := KeysWithPrefix(tail, prefix);
      var listed := KeysWithPrefix(bucketKeys, prefix);
      assert Distinct(rest);
      if StartsWith(bucketKeys[0], prefix) {
        assert listed == [bucketKeys[0]] + rest;
        forall i, j | 0 <= i < j < |listed| ensures listed[i] != listed[j] {
          if i == 0 {
            assert listed[j] == rest[j - 1] && rest[j - 1] in rest;
          } else {
            assert listed[i] == rest[i - 1] && listed[j] == rest[j - 1];
          }
        }
      }
    }
  }

  /** The name of the bursar file: every occurrence of the source prefix replaced by the
      target prefix, then every ".xml" by ".csv". */
  function TargetKey(sourceKey: string, sourcePrefix: string, targetPrefix: string): (r: string)
    ensures |r| == |ReplaceAll(sourceKey, sourcePrefix, targetPrefix)|
  {
    ReplaceAll(ReplaceAll(sourceKey, sourcePrefix, targetPrefix), ".xml", ".csv")
  }

  /** A key in which the source prefix does not occur only has its ".xml" rewritten. */
  lemma TargetKeyWithoutSourcePrefix(sourceKey: string, sourcePrefix: string, targetPrefix: string)
    requires sourcePrefix != [] && !Occurs(sourcePrefix, sourceKey)
    ensures TargetKey(sourceKey, sourcePrefix, targetPrefix) == ReplaceAll(sourceKey, ".xml", ".csv")
  {
    ReplaceAllAbsent(sourceKey, sourcePrefix, targetPrefix);
  }

  /** For an export named `{source prefix}{rest}.xml`, the bursar file is `{target prefix}{rest}.csv`. */
  lemma TargetKeyOfExport(sourcePrefix: string, targetPrefix: string, rest: string)
    requires sourcePrefix != []
    requires !Occurs(sourcePrefix, rest + ".xml")
    requires '.' !in targetPrefix + rest
    ensures TargetKey(sourcePrefix + rest + ".xml", sourcePrefix, targetPrefix) == targetPrefix + rest + ".csv"
  {
    assert sourcePrefix + rest + ".xml" == sourcePrefix + (rest + ".xml");
    ReplaceAllAtFront(sourcePrefix, rest + ".xml", targetPrefix);
    ReplaceAllAbsent(rest + ".xml", sourcePrefix, targetPrefix);
    assert targetPrefix + (rest + ".xml") == (targetPrefix + rest) + ".xml";
    ReplaceAllSkipsLead(targetPrefix + rest, ".xml", ".xml", ".csv");
    ReplaceAllAtFront(".xml", "", ".csv");
    assert ".xml" + "" == ".xml";
    assert ReplaceAll("", ".xml", ".csv") == "";
  }

  /** Neither the target prefix of the test environment nor the job's suffix contains a dot. */
  lemma TestTargetHasNoDot()
    ensures '.' !in "test/target-prefix/" + "bursar_file_ready_to_pickup" + "-1234-5678"
  {
    var a, b, c := "test/target-prefix/", "bursar_file_ready_to_pickup", "-1234-5678";
    assert forall i :: 0 <= i < |a| ==> a[i] != '.';
    assert forall i :: 0 <= i < |b| ==> b[i] != '.';
    assert forall i :: 0 <= i < |c| ==> c[i] != '.';
  }

  /** The test environment's keys: the export of job 1234 and the bursar file it becomes. */
  lemma TargetKeyExample()
    ensures TargetKey("test/source-prefix/" + "bursar_export_to_test" + "-1234-5678.xml",
                      "test/source-prefix/" + "bursar_export_to_test",
                      "test/target-prefix/" + "bursar_file_ready_to_pickup")
            == "test/target-prefix/" + "bursar_file_ready_to_pickup" + "-1234-5678.csv"
  {
    var sp := "test/source-prefix/" + "bursar_export_to_test";
    var tp := "test/target-prefix/" + "bursar_file_ready_to_pickup";
    var rest := "-1234-5678";
    assert !Occurs(sp, rest + ".xml");
    TestTargetHasNoDot();
    TargetKeyOfExport(sp, tp, rest);
    assert sp + rest + ".xml" == "test/source-prefix/" + "bursar_export_to_test" + "-1234-5678.xml";
  }

  /** The test buckets: one matching file, none, a file under another prefix, and two matches. */
  lemma KeySelectionExamples()
    ensures GetKeyFromJobId(KeysWithPrefix([], "nope"), "no-files", "nope") == Failure(NoFiles("no-files", "nope"))
    ensures GetKeyFromJobId(KeysWithPrefix(["test/source-prefix/" + "bursar_export_to_test-abcd-5678.xml"], "bad/prefix-1234"),
                            "no-match", "bad/prefix-1234")
            == Failure(NoFiles("no-match", "bad/prefix-1234"))
    ensures GetKeyFromJobId(KeysWithPrefix(["test/source-prefix/" + "bursar_export_to_test-1234-5678.xml",
                                            "test/source-prefix/" + "bursar_export_to_test-1234-abcd.xml"],
                                           "test/source-prefix/" + "bursar_export_to_test-1234"),
                            "multiple-matches", "test/source-prefix/" + "bursar_export_to_test-1234")
            == Failure(MultipleFiles("multiple-matches", "test/source-prefix/" + "bursar_export_to_test-1234"))
  {
    var prefix := "test/source-prefix/" + "bursar_export_to_test-1234";
    var first := "test/source-prefix/" + "bursar_export_to_test-1234-5678.xml";
    var second := "test/source-prefix/" + "bursar_export_to_test-1234-abcd.xml";
    assert StartsWith(first, prefix) && StartsWith(second, prefix);
    assert [first, second][1..] == [second] && [second][1..] == [];
    assert KeysWithPrefix([second], prefix) == [second];
    var other := "test/source-prefix/" + "bursar_export_to_test-abcd-5678.xml";
    assert other[0] == 't';
    assert !StartsWith(other, "bad/prefix-1234");
  }
}
