/** The request handler `index` for a POST: the two checks that answer 400
    before anything is saved, and the try/finally around the transcriber
    that removes both the sidecar and the saved upload on every path. */
module App {
  import opened Wrappers
  import Extensions
  import opened Transcriber

  /** One uploaded part of a multipart form, known by its client filename. */
  datatype Upload = Upload(filename: string)

  /** The early answer of `index`, or permission to go on with the upload. */
  datatype Gate = Reject(body: string, status: int) | Proceed(upload: Upload)

  /** The two checks at the top of a POST to `index`, in their order: the
      `file` field must be present, and only then is its filename looked at. */
  function GateUpload(files: map<string, Upload>): Gate {
    if "file" !in files then Reject("No file uploaded", 400)
    else if files["file"].filename == "" then Reject("No selected file", 400)
    else Proceed(files["file"])
  }

  /** A request without a `file` field is answered "No file uploaded" with
      status 400, whatever else the form holds. */
  lemma MissingFieldRejected(files: map<string, Upload>)
    requires "file" !in files
    ensures GateUpload(files) == Reject("No file uploaded", 400)
  {
  }

  /** A `file` field with an empty filename is answered "No selected file"
      with status 400. */
  lemma EmptyFilenameRejected(files: map<string, Upload>)
    requires "file" in files && files["file"].filename == ""
    ensures GateUpload(files) == Reject("No selected file", 400)
  {
  }

  /** The handler goes on exactly when the `file` field is present with a
      non-empty filename, and then with that very upload; every refusal is a
      400 with one of the two messages. */
  lemma GateProceedsIff(files: map<string, Upload>)
    ensures GateUpload(files).Proceed? <==> "file" in files && files["file"].filename != ""
    ensures GateUpload(files).Proceed? ==> GateUpload(files).upload == files["file"]
    ensures GateUpload(files).Reject? ==>
      GateUpload(files).status == 400 &&
      (GateUpload(files).body == "No file uploaded" || GateUpload(files).body == "No selected file")
  {
  }

  /** Only the `file` field is ever looked at: other form fields do not
      change the decision. */
  lemma GateReadsOnlyFileField(files: map<string, Upload>, others: map<string, Upload>)
    requires "file" !in others
    ensures GateUpload(files + others) == GateUpload(files)
  {
  }

  /** The extension allow-list is not consulted: any non-empty filename
      passes the gate, whatever its suffix. */
  lemma ExtensionNotChecked(filename: string)
    requires filename != ""
    ensures GateUpload(map["file" := Upload(filename)]) == Proceed(Upload(filename))
  {
  }

  /** A name the allow-list refuses, "a.mp4.txt", still goes on to processing. */
  lemma UnlistedExtensionProceeds()
    ensures !Extensions.AllowedFile("a.mp4.txt")
    ensures GateUpload(map["file" := Upload("a.mp4.txt")]).Proceed?
  {
    Extensions.InnerSuffixIgnored();
    ExtensionNotChecked("a.mp4.txt");
  }

  /** The try/except/finally block of `index` after the upload has been saved
      at `filePath`: build a transcriber, run the pipeline, then, whatever
      happened, clean up the sidecar and remove the saved upload.  Afterwards
      neither file exists and every other path is as it was. */
  method HandleUpload(fs: FileSystem, filePath: string, extraction: Extraction, recognition: Option<string>)
    returns (r: Result<string, PipelineError>)
    modifies fs
    ensures r == ProcessOutcome(extraction, recognition)
    ensures SidecarPath !in fs.paths && filePath !in fs.paths
    ensures fs.paths == old(fs.paths) - {SidecarPath, filePath}
  {
    var transcriber := new VideoTranscriber(filePath);
    r := transcriber.ProcessVideo(fs, extraction, recognition);
    transcriber.Cleanup(fs);
    var saved := fs.Exists(filePath);
    if saved {
      fs.Remove(filePath);
    }
  }
}
