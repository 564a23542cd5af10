/**
 * `lambda_handler`: one bursar transfer run. The export of the job is found in
 * the source bucket, converted, uploaded under its bursar name to the target
 * bucket, and read back for the record count and the total charged.
 */
module Handler {
  import opened Wrappers
  import opened Strings
  import opened SourceKeys
  import opened BillingTerms
  import opened CsvBuffers
  import opened ExportTransform
  import opened ChargesSummary

  /** The deployment's settings, read from the environment: `WORKSPACE` is `None` when unset. */
  datatype Settings = Settings(workspace: Option<string>, sourceBucket: string, targetBucket: string,
                               sourcePrefix: string, targetPrefix: string)

  /** Why a run fails: the `RuntimeError` for a missing workspace, or the error of a step. */
  datatype HandlerError =
    | WorkspaceNotSet
    | NoSourceFile(keyError: KeyError)
    | ConversionFailed(conversionError: ConversionError)
    | SummaryFailed(summaryError: SummaryError)

  /** The dictionary the handler returns; the total is in cents. */
  datatype Response = Response(targetFile: string, recordCount: nat, totalCents: int)

  /** The object `put_csv` stores: bucket, key and the records of the file. */
  datatype Upload = Upload(bucket: string, key: string, lines: seq<seq<string>>)

  /** The prefix the job's export starts with. */
  function JobPrefix(settings: Settings, jobId: string): (prefix: string)
    ensures |prefix| == |settings.sourcePrefix| + 1 + |jobId|
    ensures StartsWith(prefix, settings.sourcePrefix) && prefix[|settings.sourcePrefix|] == '-'
    ensures prefix[|settings.sourcePrefix| + 1..] == jobId
  {
    settings.sourcePrefix + "-" + jobId
  }

  /** A run as a whole: its answer, and the file it uploaded, if it got that far. `exportOf` gives
      the parsed export stored under a key. */
  function Transfer(settings: Settings, jobId: string, bucketKeys: seq<string>,
                    exportOf: string -> seq<User>, today: Date): (Result<Response, HandlerError>, Option<Upload>)
    requires today.Valid()
  {
    if !Truthy(settings.workspace) then (Failure(WorkspaceNotSet), None)
    else
      var prefix := JobPrefix(settings, jobId);
      match GetKeyFromJobId(KeysWithPrefix(bucketKeys, prefix), settings.sourceBucket, prefix)
      case Failure(e) => (Failure(NoSourceFile(e)), None)
      case Success(sourceKey) =>
        var targetKey := TargetKey(sourceKey, settings.sourcePrefix, settings.targetPrefix);
        var conversion := Convert(exportOf(sourceKey), today);
        if conversion.failed then (Failure(ConversionFailed(MissingValues)), None)
        else
          var lines := CsvLines(conversion.rows);
          var upload := Some(Upload(settings.targetBucket, targetKey, lines));
          match Summarize(lines)
          case Failure(e) => (Failure(SummaryFailed(e)), upload)
          case Success(s) =>
            (Success(Response(settings.targetBucket + "/" + targetKey, s.recordCount, s.totalCents)), upload)
  }

  /** `lambda_handler(event, context)` with the job id of the event, the keys of the source bucket
      in listing order, and the date the module was loaded. `skipped` holds the entries logged for
      fees skipped while converting the export, including a conversion that then fails. */
  method LambdaHandler(settings: Settings, jobId: string, bucketKeys: seq<string>,
                       exportOf: string -> seq<User>, today: Date)
    returns (response: Result<Response, HandlerError>, upload: Option<Upload>, skipped: seq<SkipEntry>)
    requires today.Valid()
    ensures (response, upload) == Transfer(settings, jobId, bucketKeys, exportOf, today)
    ensures var listing := KeysWithPrefix(bucketKeys, JobPrefix(settings, jobId));
            skipped == if Truthy(settings.workspace) && |listing| == 1
                       then Convert(exportOf(listing[0]), today).log else []
    ensures response.Success? ==> upload.Some? && response.value.targetFile == upload.value.bucket + "/" + upload.value.key
  {
    if !Truthy(settings.workspace) {
      return Failure(WorkspaceNotSet), None, [];
    }
    var prefixWithJobId := settings.sourcePrefix + "-" + jobId;
    var key := GetKeyFromJobId(KeysWithPrefix(bucketKeys, prefixWithJobId), settings.sourceBucket, prefixWithJobId);
    if key.Failure? {
      return Failure(NoSourceFile(key.error)), None, [];
    }
    var sourceKey := key.value;
    var targetKey := TargetKey(sourceKey, settings.sourcePrefix, settings.targetPrefix);
    var almaExport := exportOf(sourceKey);
    var converted;
    converted, skipped := XmlToCsv(almaExport, today);
    if converted.Failure? {
      return Failure(ConversionFailed(converted.error)), None, skipped;
    }
    var bursarCsv := converted.value;
    upload := Some(Upload(settings.targetBucket, targetKey, bursarCsv.lines));
    var csvLocation := settings.targetBucket + "/" + targetKey;
    var summary := GetRecordsAndTotalCharges(bursarCsv);
    if summary.Failure? {
      return Failure(SummaryFailed(summary.error)), upload, skipped;
    }
    response := Success(Response(csvLocation, summary.value.recordCount, summary.value.totalCents));
  }

  /** A run succeeds exactly when the workspace is set, one key starts with the job's prefix, its
      export converts and every amount written is a number. It then reports the bursar file's
      location, one record per row written and the sum of their amounts. The file is uploaded
      before the amounts are read back, so a run can fail after uploading it. */
  lemma TransferOutcome(settings: Settings, jobId: string, bucketKeys: seq<string>,
                        exportOf: string -> seq<User>, today: Date)
    requires today.Valid()
    ensures var listing := KeysWithPrefix(bucketKeys, JobPrefix(settings, jobId));
            var outcome := Transfer(settings, jobId, bucketKeys, exportOf, today);
            var uploaded := Truthy(settings.workspace) && |listing| == 1 && !Convert(exportOf(listing[0]), today).failed;
            (outcome.1.Some? <==> uploaded)
            && (outcome.0.Success? <==> uploaded && TotalCents(Convert(exportOf(listing[0]), today).rows).Some?)
            && (outcome.0.Success? ==>
                  var rows := Convert(exportOf(listing[0]), today).rows;
                  var targetKey := TargetKey(listing[0], settings.sourcePrefix, settings.targetPrefix);
                  outcome.0.value == Response(settings.targetBucket + "/" + targetKey, |rows|, TotalCents(rows).value)
                  && outcome.1 == Some(Upload(settings.targetBucket, targetKey, CsvLines(rows))))
  {
    var listing := KeysWithPrefix(bucketKeys, JobPrefix(settings, jobId));
    if |listing| == 1 {
      var rows := Convert(exportOf(listing[0]), today).rows;
      SummaryOfConversion(rows);
      TotalCentsDefined(rows);
    }
  }

  /** The settings of the test environment. */
  function TestSettings(): Settings
  {
    Settings(Some("test"), "test-alma-bucket", "test-pickup-bucket",
             "test/source-prefix/" + "bursar_export_to_test", "test/target-prefix/" + "bursar_file_ready_to_pickup")
  }

  /** With the export of job 1234 alone in the source bucket, a successful run reports the bursar
      file under the target bucket with the test environment's name. */
  lemma TestEnvironmentTarget(exportOf: string -> seq<User>, today: Date)
    requires today.Valid()
    requires Transfer(TestSettings(), "1234", ["test/source-prefix/" + "bursar_export_to_test" + "-1234-5678.xml"],
                      exportOf, today).0.Success?
    ensures Transfer(TestSettings(), "1234", ["test/source-prefix/" + "bursar_export_to_test" + "-1234-5678.xml"],
                     exportOf, today).0.value.targetFile
            == "test-pickup-bucket/" + "test/target-prefix/" + "bursar_file_ready_to_pickup" + "-1234-5678.csv"
  {
    var settings := TestSettings();
    var key := "test/source-prefix/" + "bursar_export_to_test" + "-1234-5678.xml";
    var targetKey := TargetKey(key, settings.sourcePrefix, settings.targetPrefix);
    TestListing();
    TransferTargetFile(settings, "1234", [key], key, exportOf, today);
    assert targetKey == "test/target-prefix/" + "bursar_file_ready_to_pickup" + "-1234-5678.csv" by {
      TargetKeyExample();
    }
  }

  /** The test bucket's only key is the one listed for job 1234. */
  lemma TestListing()
    ensures KeysWithPrefix(["test/source-prefix/" + "bursar_export_to_test" + "-1234-5678.xml"],
                           JobPrefix(TestSettings(), "1234"))
            == ["test/source-prefix/" + "bursar_export_to_test" + "-1234-5678.xml"]
  {
    var key := "test/source-prefix/" + "bursar_export_to_test" + "-1234-5678.xml";
    assert StartsWith(key, JobPrefix(TestSettings(), "1234"));
  }

  /** A successful run whose job prefix lists a single key reports that key's bursar file. */
  lemma TransferTargetFile(settings: Settings, jobId: string, bucketKeys: seq<string>, key: string,
                           exportOf: string -> seq<User>, today: Date)
    requires today.Valid()
    requires KeysWithPrefix(bucketKeys, JobPrefix(settings, jobId)) == [key]
    ensures var response := Transfer(settings, jobId, bucketKeys, exportOf, today).0;
            response.Success? ==>
              response.value.targetFile == settings.targetBucket + "/" + TargetKey(key, settings.sourcePrefix, settings.targetPrefix)
  {
    TransferOutcome(settings, jobId, bucketKeys, exportOf, today);
  }
}
