# Video transcriber: a Dafny model of its request-handling core

The system is a small web form. A user uploads a video. The server saves it,
extracts its audio track to a sidecar WAV file, sends that audio to a remote
speech-recognition service and shows the transcript. Afterwards it deletes the
sidecar and the saved upload. Almost all of this is glue around foreign
libraries. This project models the parts with logic of their own:

- `Extensions` holds the extension allow-list `ALLOWED_EXTENSIONS` and its
  validator `allowed_file`. A filename is accepted when it contains a dot and
  the text after its last dot, lowered, is one of ten media suffixes. It rests
  on `PyStr`, which models the Python string operations the validator uses:
  `str.lower()`, character membership and `str.rsplit('.', 1)`.
- `App.GateUpload` models the two checks at the top of a POST to `index`. A
  missing `file` field gives "No file uploaded" with status 400. Only after
  that, an empty filename gives "No selected file" with status 400. Otherwise
  handling proceeds.
- `Transcriber.VideoTranscriber` is a class with the object's two fields. The
  sidecar path is always `extracted_audio.wav`, whatever the video path is. The
  disk is a `FileSystem` object whose field is the set of existing paths.
  `Cleanup` removes exactly the sidecar when it exists and is a no-op
  otherwise. `ExtractAudio`, `TranscribeAudio` and `ProcessVideo` take the
  media library's and the speech service's outcomes as parameters. They state
  the order of the steps, which files exist afterwards, and the result: the
  service's text, or which kind of error occurred.
- `App.HandleUpload` models the try/except/finally of `index`. Whatever the
  pipeline does, neither the sidecar nor the saved upload exists afterwards.
  Every other path is left as it was.

`VideoTranscriber.allowed_file` (main.py:15-17) checks the extension, but
`index` (main.py:44-74) never calls it. The model follows the code:
`App.UnlistedExtensionProceeds` shows that an upload named `a.mp4.txt`, which
the allow-list refuses, passes the gate.

## Model

| member | source | states |
|---|---|---|
| PyStr.Lower | main.py:17 | `.lower()` keeps the length and maps each character on its own: ASCII capitals become small letters, every other character stays |
| PyStr.LastIndexOf | main.py:17 | finds the last occurrence of a character: absent exactly when the character is not in the string, and when present, no later occurrence follows |
| PyStr.RSplitOnce | main.py:17 | `rsplit('.', 1)` gives the whole string when there is no dot; otherwise two parts that join back to the string around a dot, with no dot in the second part |
| PyStr.RSplitOnceOfJoin | main.py:17 | splitting undoes joining: `(head + "." + tail).rsplit('.', 1)` is `[head, tail]` for every dot-free `tail`, even when `head` contains dots |
| Extensions.NoDotRejected | main.py:17 | a filename without a dot is refused |
| Extensions.LastSuffixDecides | main.py:9-17 | for a dot-free suffix `ext` and any stem, the name `stem.ext` is accepted exactly when lowered `ext` is one of the ten allowed extensions |
| Extensions.TrailingDotRejected | main.py:9-17 | a name ending in a dot has an empty last suffix and is refused |
| Extensions.AllowedFileIff | main.py:9-17 | a name is accepted exactly when some position holds a dot, no dot follows it, and the lowered text after it is on the allow-list |
| Extensions.AllowedFileOfLower | main.py:17 | lowering the whole name never changes the verdict |
| Extensions.AllowedFileIgnoresCase | main.py:17 | two names that differ only in the case of ASCII letters get the same verdict |
| Extensions.InnerDotIgnored | main.py:17 | `a.txt.mp4` is accepted: only the last suffix counts |
| Extensions.InnerSuffixIgnored | main.py:17 | `a.mp4.txt` is refused: an allowed inner suffix does not help |
| Extensions.UpperCaseAccepted | main.py:17 | `CLIP.MP4` is accepted: the suffix is lowered before the lookup |
| Extensions.TrailingDotExample | main.py:17 | `video.` is refused |
| Extensions.BareSuffixAccepted | main.py:9-17 | `.mp4`, with an empty stem, is accepted |
| Transcriber.Cleaned | main.py:39-42 | the paths after cleanup: the sidecar is gone, nothing new appears, and every other existing path remains |
| Transcriber.CleanedIdempotent | main.py:39-42 | cleaning up twice leaves the same paths as cleaning up once |
| Transcriber.CleanedNoSidecar | main.py:41 | with no sidecar on disk, cleanup leaves the paths unchanged |
| Transcriber.ProcessOutcome | main.py:33-37 | the pipeline yields a transcript exactly when extraction succeeds and the service answers, and then it is the service's text; a failed extraction fails before the service is consulted |
| Transcriber.VideoTranscriber.constructor | main.py:11-13 | keeps the given video path; the audio path is always `extracted_audio.wav` |
| Transcriber.VideoTranscriber.AllowedFile | main.py:15-17 | returns the allow-list verdict; it has no `modifies` clause, so the object and the disk are unchanged |
| Transcriber.VideoTranscriber.ExtractAudio | main.py:19-24 | succeeds exactly when the media library does, otherwise fails with a media error; the sidecar is added to the disk when extraction wrote it, and nothing else changes |
| Transcriber.VideoTranscriber.TranscribeAudio | main.py:26-31 | a missing sidecar fails before the service is asked; otherwise the result is the service's text or a recognition error; the disk is unchanged |
| Transcriber.VideoTranscriber.ProcessVideo | main.py:33-37 | extraction then transcription: the result is `ProcessOutcome`, transcription never misses the sidecar, and the disk gains at most the sidecar |
| Transcriber.VideoTranscriber.Cleanup | main.py:39-42 | the new paths are `Cleaned` of the old ones; it is a no-op when the sidecar is absent; a video path other than the sidecar path is never removed |
| App.MissingFieldRejected | main.py:49-50 | without a `file` field the answer is "No file uploaded" with status 400, whatever else the form holds |
| App.EmptyFilenameRejected | main.py:52-55 | a `file` field with an empty filename gives "No selected file" with status 400 |
| App.GateProceedsIff | main.py:49-55 | handling proceeds exactly when the `file` field is present with a non-empty filename, and then with that upload; every refusal is a 400 with one of the two messages |
| App.GateReadsOnlyFileField | main.py:49-55 | form fields other than `file` never change the decision |
| App.ExtensionNotChecked | main.py:49-61 | every non-empty filename passes the gate, whatever its suffix |
| App.UnlistedExtensionProceeds | main.py:49-61 | `a.mp4.txt` is refused by the allow-list yet passes the gate and goes on to processing |
| App.HandleUpload | main.py:64-72 | returns the pipeline's outcome; afterwards neither the sidecar nor the saved upload exists, and every other path is unchanged |

## Left out

- PyStr.Lower: models `str.lower()` over ASCII only. Python also lowers non-ASCII letters, and some of them lower to ASCII. For example, the Kelvin sign lowers to `k`, so Python accepts `clip.MKV`; the model refuses it.
- `extract_audio` and `transcribe_audio` call a media library and a remote speech service. Their results are parameters (`Extraction`, `Option<string>`). Transcript contents are not modelled.
- The text `"Error occurred: ..."` that `index` builds from an exception message is not modelled. `App.HandleUpload` returns the error kind instead.
- The Flask route, the GET branch, `render_template`, `os.path.join`, `os.makedirs` and `file.save` are web plumbing and file I/O. `App.HandleUpload` starts from the path where the upload was saved.
- Paths are compared as strings. Two spellings of the same file (`uploads/../x`) are not identified, and the unsanitised client filename is not analysed.
- Concurrent requests that share the fixed sidecar name are outside this sequential model.
- `os.remove` on a missing file raises in Python. `FileSystem.Remove` models this as a precondition, which the existence checks in `cleanup` and `index` discharge.
