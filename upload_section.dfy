/** The upload handler of components/UploadSection.tsx: every file of a batch
    must parse to an array whose elements all carry a string `ts`; the
    records of all files are concatenated in file order and handed on in one
    callback, or, on the first failure, nothing is handed on. */
module UploadSection {
  import opened Types

  /** Why a batch was rejected (the source logs the error and stops). */
  datatype UploadError =
    | NotJson(file: nat)
    | NotAnArray(file: nat)
    | MissingTs(file: nat, item: nat)

  /** What one call of the handler does: nothing (no files), nothing but an
      error (a rejected batch), or one `onStreamsLoaded(fileCount, streams)`. */
  datatype UploadOutcome =
    | Skipped
    | Rejected(error: UploadError)
    | Loaded(fileCount: nat, streams: seq<ExtendedStream>)

  /** `typeof item.ts === "string"`; reading `ts` of a value that is not an
      object also fails the check (or throws, which aborts just the same). */
  predicate HasStringTs(item: Json)
  {
    item.JObject? && HasString(item.members, "ts")
  }

  /** `{ ...item, endTime: new Date(item.ts) }`: `endTime` is added from
      `ts`, and every other member of the parsed record is kept with its value. */
  function Tag(item: Json): (s: ExtendedStream)
    requires HasStringTs(item)
    ensures JString(s.ts) == item.members["ts"]
    ensures s.endTime == DateOf(s.ts)
    ensures forall key :: key in item.members && key != "ts" && key != "endTime" ==>
      key in s.fields && s.fields[key] == item.members[key]
    ensures forall key :: key in s.fields ==> key in item.members
    ensures "ts" !in s.fields && "endTime" !in s.fields
  {
    var ts := item.members["ts"].str;
    ExtendedStream(ts, item.members - {"ts", "endTime"}, DateOf(ts))
  }

  function TagAll(items: seq<Json>): (r: seq<ExtendedStream>)
    requires forall k :: 0 <= k < |items| ==> HasStringTs(items[k])
    ensures |r| == |items|
  {
    seq(|items|, k requires 0 <= k < |items| => Tag(items[k]))
  }

  /** The position of the first element without a string `ts`, if any. */
  function FirstUntimestamped(items: seq<Json>): (r: Option<nat>)
    ensures r.Some? ==> r.value < |items| && !HasStringTs(items[r.value])
    ensures forall k :: 0 <= k < |items| && (r.None? || k < r.value) ==> HasStringTs(items[k])
  {
    if items == [] then None
    else if !HasStringTs(items[0]) then Some(0)
    else match FirstUntimestamped(items[1..])
      case None => None
      case Some(k) => Some(k + 1)
  }

  /** The checks made on file number `index` and the records it contributes. */
  function ValidateFile(index: nat, file: Parse): Result<seq<ExtendedStream>, UploadError>
  {
    match file
    case SyntaxError => Failure(NotJson(index))
    case Parsed(value) =>
      if !value.JArray? then Failure(NotAnArray(index))
      else match FirstUntimestamped(value.items)
        case Some(k) => Failure(MissingTs(index, k))
        case None => Success(TagAll(value.items))
  }

  /** The files are checked in order; the first failure decides the result. */
  function IngestFiles(files: seq<Parse>): Result<seq<ExtendedStream>, UploadError>
  {
    if files == [] then Success([])
    else match IngestFiles(files[..|files| - 1])
      case Failure(e) => Failure(e)
      case Success(previous) =>
        match ValidateFile(|files| - 1, files[|files| - 1])
        case Failure(e) => Failure(e)
        case Success(streams) => Success(previous + streams)
  }

  /** What `handleUpload(files)` does. */
  function Outcome(files: seq<Parse>): UploadOutcome
  {
    if |files| == 0 then Skipped
    else match IngestFiles(files)
      case Failure(e) => Rejected(e)
      case Success(streams) => Loaded(|files|, streams)
  }

  /** A file passes when it parsed to an array whose elements all carry a
      string `ts`. */
  ghost predicate ValidFile(file: Parse)
  {
    && file.Parsed?
    && file.value.JArray?
    && forall k :: 0 <= k < |file.value.items| ==> HasStringTs(file.value.items[k])
  }

  /** The records of all files, in file order and then element order. */
  function AllItems(files: seq<Parse>): seq<Json>
    requires forall i :: 0 <= i < |files| ==> ValidFile(files[i])
  {
    if files == [] then []
    else
      assert ValidFile(files[|files| - 1]);
      AllItems(files[..|files| - 1]) + files[|files| - 1].value.items
  }

  /** The number of records in all files together. */
  function TotalItems(files: seq<Parse>): nat
    requires forall i :: 0 <= i < |files| ==> ValidFile(files[i])
  {
    if files == [] then 0
    else
      assert ValidFile(files[|files| - 1]);
      TotalItems(files[..|files| - 1]) + |files[|files| - 1].value.items|
  }

  /** A failure in the first `k` files is the failure of the whole batch. */
  lemma {:induction false} IngestFailureIsFinal(files: seq<Parse>, k: nat, e: UploadError)
    requires k <= |files| && IngestFiles(files[..k]) == Failure(e)
    ensures IngestFiles(files) == Failure(e)
    decreases |files| - k
  {
    if k < |files| {
      assert files[..k + 1][..k] == files[..k];
      IngestFailureIsFinal(files, k + 1, e);
    } else {
      assert files[..k] == files;
    }
  }

  /** Ingestion succeeds exactly when every file is valid, and it then yields
      the tagged records of all files in order, as many as there are. */
  lemma {:induction false} IngestFilesCorrect(files: seq<Parse>)
    ensures IngestFiles(files).Success? <==> forall i :: 0 <= i < |files| ==> ValidFile(files[i])
    ensures IngestFiles(files).Success? ==>
      && (forall k :: 0 <= k < |AllItems(files)| ==> HasStringTs(AllItems(files)[k]))
      && IngestFiles(files).value == TagAll(AllItems(files))
      && |IngestFiles(files).value| == TotalItems(files)
  {
    if files != [] {
      var front, last := files[..|files| - 1], files[|files| - 1];
      IngestFilesCorrect(front);
      assert forall i :: 0 <= i < |front| ==> front[i] == files[i];
      var v := ValidateFile(|files| - 1, last);
      assert v.Success? <==> ValidFile(last) by {
        if last.Parsed? && last.value.JArray? {
          var f := FirstUntimestamped(last.value.items);
          assert f.Some? ==> !HasStringTs(last.value.items[f.value]);
        }
      }
      if IngestFiles(files).Success? {
        var items := AllItems(front) + last.value.items;
        assert AllItems(files) == items;
        assert forall k :: 0 <= k < |items| ==> HasStringTs(items[k]) by {
          forall k | 0 <= k < |items|
            ensures HasStringTs(items[k])
          {
            if k >= |AllItems(front)| {
              assert items[k] == last.value.items[k - |AllItems(front)|];
            }
          }
        }
        assert IngestFiles(files).value == TagAll(items);
      }
    }
  }

  /** The handler calls back exactly when the batch is non-empty and every
      file is valid; the callback reports the number of files and the tagged
      records of all files in order. A single bad file anywhere rejects the
      batch, and no record of any file is handed on. */
  lemma OutcomeCorrect(files: seq<Parse>)
    ensures Outcome(files).Loaded? <==> |files| > 0 && forall i :: 0 <= i < |files| ==> ValidFile(files[i])
    ensures Outcome(files).Skipped? <==> |files| == 0
    ensures Outcome(files).Loaded? ==>
      && Outcome(files).fileCount == |files|
      && (forall k :: 0 <= k < |AllItems(files)| ==> HasStringTs(AllItems(files)[k]))
      && Outcome(files).streams == TagAll(AllItems(files))
      && |Outcome(files).streams| == TotalItems(files)
  {
    IngestFilesCorrect(files);
  }

  /** The error reported names the first invalid file. */
  lemma {:induction false} RejectionNamesFirstBadFile(files: seq<Parse>)
    requires Outcome(files).Rejected?
    ensures Outcome(files).error.file < |files|
    ensures !ValidFile(files[Outcome(files).error.file])
    ensures forall i :: 0 <= i < Outcome(files).error.file ==> ValidFile(files[i])
  {
    RejectionNamesFirstBadFileOfIngest(files);
  }

  lemma {:induction false} RejectionNamesFirstBadFileOfIngest(files: seq<Parse>)
    requires IngestFiles(files).Failure?
    ensures IngestFiles(files).error.file < |files|
    ensures !ValidFile(files[IngestFiles(files).error.file])
    ensures forall i :: 0 <= i < IngestFiles(files).error.file ==> ValidFile(files[i])
  {
    var front, last := files[..|files| - 1], files[|files| - 1];
    assert forall i :: 0 <= i < |front| ==> front[i] == files[i];
    if IngestFiles(front).Failure? {
      RejectionNamesFirstBadFileOfIngest(front);
    } else {
      IngestFilesCorrect(front);
      if last.Parsed? && last.value.JArray? {
        var f := FirstUntimestamped(last.value.items);
        assert f.Some? ==> !HasStringTs(last.value.items[f.value]);
      }
    }
  }

  /** `handleUpload`: a loop over the files, an inner loop checking each
      element's `ts`, and the accumulation of the tagged records. */
  method HandleUpload(files: seq<Parse>) returns (outcome: UploadOutcome)
    ensures outcome == Outcome(files)
  {
    if |files| == 0 {
      return Skipped;
    }
    var allStreams: seq<ExtendedStream> := [];
    var i := 0;
    while i < |files|
      invariant 0 <= i <= |files|
      invariant IngestFiles(files[..i]) == Success(allStreams)
    {
      assert files[..i + 1][..i] == files[..i];
      var file := files[i];
      if file.SyntaxError? {
        IngestFailureIsFinal(files, i + 1, NotJson(i));
        return Rejected(NotJson(i));
      }
      var parsed := file.value;
      if !parsed.JArray? {
        IngestFailureIsFinal(files, i + 1, NotAnArray(i));
        return Rejected(NotAnArray(i));
      }
      var items := parsed.items;
      var j := 0;
      while j < |items|
        invariant 0 <= j <= |items|
        invariant forall k :: 0 <= k < j ==> HasStringTs(items[k])
      {
        if !HasStringTs(items[j]) {
          assert FirstUntimestamped(items) == Some(j);
          IngestFailureIsFinal(files, i + 1, MissingTs(i, j));
          return Rejected(MissingTs(i, j));
        }
        j := j + 1;
      }
      var streams := seq(|items|, k requires 0 <= k < |items| => Tag(items[k]));
      allStreams := allStreams + streams;
      i := i + 1;
    }
    assert files[..i] == files;
    outcome := Loaded(|files|, allStreams);
  }
}
