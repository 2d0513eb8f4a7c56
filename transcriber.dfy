/** `VideoTranscriber`: an object that knows the uploaded video's path and
    the fixed path of its extracted-audio sidecar, extracts the audio,
    transcribes it and removes the sidecar again.  The disk is an abstract
    set of existing paths; the media library and the speech service are
    outcomes handed in as parameters. */
module Transcriber {
  import opened Wrappers
  import Extensions

  /** The sidecar file name every transcriber writes to. */
  const SidecarPath: string := "extracted_audio.wav"

  /** The part of the operating system the core touches: which paths exist. */
  class FileSystem {
    var paths: set<string>

    constructor (existing: set<string>)
      ensures paths == existing
    {
      paths := existing;
    }

    /** `os.path.exists(path)`. */
    method Exists(path: string) returns (b: bool)
      ensures b <==> path in paths
    {
      b := path in paths;
    }

    /** `os.remove(path)`; removing a missing file raises in Python, which
        is why callers must know the path exists. */
    method Remove(path: string)
      requires path in paths
      modifies this
      ensures paths == old(paths) - {path}
    {
      paths := paths - {path};
    }

    /** Creating or overwriting a file at `path`. */
    method Write(path: string)
      modifies this
      ensures paths == old(paths) + {path}
    {
      paths := paths + {path};
    }
  }

  /** The paths left after the sidecar `audioPath` is cleaned up. */
  function Cleaned(paths: set<string>, audioPath: string): (r: set<string>)
    ensures audioPath !in r
    ensures r <= paths
    ensures forall p :: p in paths && p != audioPath ==> p in r
  {
    paths - {audioPath}
  }

  /** Cleaning up twice leaves what cleaning up once leaves. */
  lemma CleanedIdempotent(paths: set<string>, audioPath: string)
    ensures Cleaned(Cleaned(paths, audioPath), audioPath) == Cleaned(paths, audioPath)
  {
  }

  /** Cleaning up with no sidecar on disk changes nothing. */
  lemma CleanedNoSidecar(paths: set<string>, audioPath: string)
    requires audioPath !in paths
    ensures Cleaned(paths, audioPath) == paths
  {
  }

  /** What the media library does when asked to extract the audio track:
      it succeeds, or it fails, possibly after it has started writing the
      sidecar (a failure inside `write_audiofile`). */
  datatype Extraction = Extracted | ExtractionFailed(wroteSidecar: bool)

  /** The exceptions the pipeline can raise, by origin. */
  datatype PipelineError =
    | MediaError       // the video could not be opened or its audio not written
    | AudioFileError   // the sidecar does not exist when recognition starts
    | RecognitionError // the speech service failed or understood nothing

  /** Does the extraction step leave a sidecar file on disk? */
  predicate WritesSidecar(extraction: Extraction) {
    extraction.Extracted? || extraction.wroteSidecar
  }

  /** The outcome of extraction followed by transcription: transcription is
      consulted only once extraction has succeeded. */
  function ProcessOutcome(extraction: Extraction, recognition: Option<string>): (r: Result<string, PipelineError>)
    ensures r.Success? <==> extraction.Extracted? && recognition.Some?
    ensures r.Success? ==> r.value == recognition.value
    ensures !extraction.Extracted? ==> r == Failure(MediaError)
    ensures extraction.Extracted? && recognition.None? ==> r == Failure(RecognitionError)
  {
    if !extraction.Extracted? then Failure(MediaError)
    else if recognition.None? then Failure(RecognitionError)
    else Success(recognition.value)
  }

  class VideoTranscriber {
    const videoPath: string
    const audioPath: string

    /** `__init__`: the sidecar path is fixed, whatever the video path is. */
    constructor (videoPath: string)
      ensures this.videoPath == videoPath
      ensures audioPath == SidecarPath
    {
      this.videoPath := videoPath;
      audioPath := SidecarPath;
    }

    /** `allowed_file`: computes the allow-list verdict and, having no
        `modifies` clause, leaves the object and the disk as they were. */
    method AllowedFile(filename: string) returns (ok: bool)
      ensures ok <==> Extensions.AllowedFile(filename)
    {
      ok := Extensions.AllowedFile(filename);
    }

    /** `extract_audio`: on success the sidecar exists; a failure may or may
        not have left one behind. */
    method ExtractAudio(fs: FileSystem, extraction: Extraction) returns (r: Result<(), PipelineError>)
      modifies fs
      ensures r.Success? <==> extraction.Extracted?
      ensures r.Failure? ==> r.error == MediaError
      ensures fs.paths == if WritesSidecar(extraction) then old(fs.paths) + {audioPath} else old(fs.paths)
    {
      match extraction
      case Extracted =>
        fs.Write(audioPath);
        r := Success(());
      case ExtractionFailed(wrote) =>
        if wrote {
          fs.Write(audioPath);
        }
        r := Failure(MediaError);
    }

    /** `transcribe_audio`: reads the sidecar and asks the speech service
        (`recognition` is its answer; `None` also covers a sidecar that exists
        but cannot be read as audio); a missing sidecar fails before the
        service is asked. */
    method TranscribeAudio(fs: FileSystem, recognition: Option<string>) returns (r: Result<string, PipelineError>)
      ensures audioPath !in fs.paths ==> r == Failure(AudioFileError)
      ensures audioPath in fs.paths && recognition.None? ==> r == Failure(RecognitionError)
      ensures audioPath in fs.paths && recognition.Some? ==> r == Success(recognition.value)
    {
      var present := fs.Exists(audioPath);
      if !present {
        r := Failure(AudioFileError);
      } else if recognition.None? {
        r := Failure(RecognitionError);
      } else {
        r := Success(recognition.value);
      }
    }

    /** `process_video`: extraction, then transcription.  Because extraction
        comes first, transcription always finds the sidecar. */
    method ProcessVideo(fs: FileSystem, extraction: Extraction, recognition: Option<string>)
      returns (r: Result<string, PipelineError>)
      modifies fs
      ensures r == ProcessOutcome(extraction, recognition)
      ensures r != Failure(AudioFileError)
      ensures fs.paths == if WritesSidecar(extraction) then old(fs.paths) + {audioPath} else old(fs.paths)
    {
      var extracted := ExtractAudio(fs, extraction);
      if extracted.Failure? {
        r := Failure(extracted.error);
        return;
      }
      r := TranscribeAudio(fs, recognition);
    }

    /** `cleanup`: removes the sidecar if it exists and nothing else; with no
        sidecar on disk it is a no-op, and a video file at any other path is
        never touched. */
    method Cleanup(fs: FileSystem)
      modifies fs
      ensures fs.paths == Cleaned(old(fs.paths), audioPath)
      ensures audioPath !in old(fs.paths) ==> fs.paths == old(fs.paths)
      ensures videoPath != audioPath ==> (videoPath in fs.paths <==> videoPath in old(fs.paths))
    {
      var present := fs.Exists(audioPath);
      if present {
        fs.Remove(audioPath);
      }
    }
  }
}
