# Image-generation client: a verified model of its decision logic

This project models the sequential decision logic of two thin clients. Both call
a remote text-to-image service (Stability AI) and save the returned image:

- the HTTP service (`main.py`) exposes the generation endpoint
  `POST /generate-image/` and a welcome route `GET /`, which is left out.
  It checks that the process-wide client handle is set. It then looks the
  aspect-ratio key up in its five-entry table and builds the prompt argument.
  Last, it scans the streamed answer for the first decisive artifact.
- the standalone script (`generate_image.py`) runs one generation with a fixed
  prompt pair and the fixed key `16:9_widescreen`. It scans the answer the same
  way and also keeps a description of the last artifact it examined.

The specification lives in module `Artifacts`. The response stream is a
`seq<seq<Artifact>>`, and each artifact has a type tag, a finish-reason tag and
an opaque payload. `Classify(Flatten(answers))` returns the outcome of the first
artifact, in arrival order across all chunks, that is filtered or is an image:

- a filtered artifact gives `Filtered`;
- otherwise an image artifact gives `Saved(payload)`;
- if no such artifact exists, the outcome is `Nothing`.

`Examined` is the part of the stream that a scan looks at, up to and including
the first decisive artifact. `LastExaminedInfo` describes the last artifact in
that part.

Both scans are imperative methods with the source's nested loops, flags and
`break`s. They are proved equal to these functions. Saving an image does not
touch the disk: the scan appends a `SavedFile(filename, payload)` record to its
returned `written` log. Each scan's `ensures` says the log holds one record for
a saved image and none otherwise.

The endpoint runs as one method call. Its inputs are the following:

- whether the client handle is set;
- the value of the `STABILITY_KEY` variable at request time, used only in the
  text of the "not initialized" detail;
- the request parameters;
- the random identifier of the output file;
- what the generation call does: it answers a stream (`Answers`), or it raises
  an exception and the exception's text is kept (`Raised`).

It returns the response object and the generation request it sent, if any. A
request of `None` means no generation call was made. It also returns the files
it wrote.

Python's truthiness test `if negative_prompt` is modelled as "the string is
non-empty". The prompt weights ±1.0 are the integers ±1. A bare prompt counts
as one component of the service's default weight +1, which is what
`Requests.Components` states.

Three behaviours of the code are worth noting:

- The service's "no image" response carries only the fixed message
  `No image generated.`. It carries no description of the last artifact; only
  the standalone script keeps one.
- A safety-filtered answer gives the fixed message
  `Safety filter activated. Please modify prompt.` and no reason from the
  service.
- When the stream has no artifacts, the script's diagnostic keeps its initial
  value `No specific artifact processed.` (`NoSpecificArtifact`).

## Model

| member | source | states |
|---|---|---|
| Artifacts.Decide | main.py:105-115 | A filtered artifact decides `Filtered` whatever its type. Only an unfiltered image decides `Saved`, carrying that artifact's payload. Every other artifact decides nothing. |
| Artifacts.Classify | main.py:103-117 | A `Filtered` outcome comes from some filtered artifact of the sequence. A `Saved` outcome carries the payload of some unfiltered image artifact. `ClassifyIsFirstDecisive` and `ClassifyNothing` characterise it fully. |
| Artifacts.StreamOutcome | generate_image.py:66-83 | A stream with no chunks decides nothing. A stream decides nothing exactly when none of its artifacts, across all chunks, is filtered or an image. |
| Artifacts.StreamOutcomeNothing | generate_image.py:66-83 | The scan of a stream's flattened artifacts decides nothing exactly when none of them is filtered or an image. |
| Artifacts.LastExaminedInfo | generate_image.py:64-68 | The diagnostic keeps its initial marker exactly when the stream has no artifacts. Otherwise it describes one of the stream's artifacts; `LastInfoOfDecisive` and `LastInfoOfUndecided` say which one. |
| Artifacts.Examined | generate_image.py:66-83 | The scanned part is a prefix of the stream. It is the whole stream when nothing is decided. Otherwise its last artifact decides the outcome. |
| Artifacts.ClassifyIsFirstDecisive | generate_image.py:66-83 | The outcome is what the first filtered-or-image artifact of the flattened stream decides (reference definition of the scan). |
| Artifacts.ClassifyNothing | main.py:99-117 | The outcome is `Nothing` exactly when no artifact is filtered and none is an image. |
| Artifacts.ClassifyAppend | main.py:103-117 | In a concatenation the first part decides if it can; otherwise the second part decides. |
| Artifacts.FilterTakesPrecedence | main.py:105-109 | A filtered artifact that follows an undecided prefix gives `Filtered`, even if it is itself an image or an image comes later. |
| Artifacts.FirstImageIsSaved | main.py:110-115 | The first unfiltered image after an undecided prefix is the one saved, whatever follows it. |
| Artifacts.EmptyChunksDecideNothing | generate_image.py:62-68 | A stream with no chunks, or only empty chunks, decides nothing, and the diagnostic keeps its initial marker. |
| Artifacts.ExaminedUpToFirstDecisive | generate_image.py:66-83 | The scan examines exactly the artifacts up to and including the first decisive one. |
| Artifacts.LastInfoOfDecisive | generate_image.py:67-75 | When there is a decisive artifact, the diagnostic describes that artifact, which is the one that stopped the scan. |
| Artifacts.LastInfoOfUndecided | generate_image.py:64-68 | With no decisive artifact, the diagnostic describes the stream's last artifact. It keeps the initial marker exactly when there were no artifacts. |
| Artifacts.SavesFor | main.py:110-115 | A scan writes at most one file, one exactly for a saved outcome, holding that outcome's payload. |
| Artifacts.FlattenAppend | main.py:103-104 | Flattening a concatenation of streams is the concatenation of their flattenings (chunk order is kept). |
| Artifacts.DecisiveArtifactDecides | main.py:105-117 | A decisive artifact reached with the prefix before it undecided decides the whole stream, and the diagnostic describes it. |
| Requests.Keys | main.py:70 | The listed keys are the table's keys, one per entry, in table order. |
| Requests.Lookup | main.py:69-72 | The lookup succeeds exactly for the table's keys, and what it finds is an entry of the table. |
| Requests.LookupFindsEntry | main.py:72 | In a table with distinct keys, looking up an entry's key finds that entry's size. |
| Requests.LookupPositive | main.py:72 | A size found in a table of positive sizes is positive. |
| Requests.BuildPrompt | main.py:87-90 | A non-empty negative prompt gives exactly [prompt at +1, negative prompt at -1] in that order. An empty one gives the bare prompt, which is a single +1 component. |
| Requests.PromptSteering | generate_image.py:47-50 | The payload steers towards the prompt alone. It steers away from the negative prompt exactly when that prompt is non-empty. |
| Service.AspectRatiosWellFormed | main.py:43-49 | The service table has distinct keys and positive sizes. Its keys, in order, are the five listed. |
| Service.AspectRatioResolves | main.py:43-49 | Every key of the service table resolves to its own entry. |
| Service.DefaultAspectRatioResolves | main.py:60 | The default key `1:1_square` resolves to 1024 by 1024. |
| Service.KeyStatus | main.py:63 | The reported status is non-empty. It begins with `N` (for "NOT SET or connection FAILED") exactly when the credential variable is unset or empty, and with `S` (for "Set, but connection FAILED on startup") otherwise. |
| Service.NotInitializedDetail | main.py:63-66 | The detail is the fixed prefix, then the credential status, then the fixed suffix. |
| Service.NotInitializedDetailReportsKey | main.py:63-66 | Two details are equal exactly when both credentials are absent or both are present. |
| Service.OutputFilename | main.py:76 | The name is `generated_image_`, then the identifier, then `.png`, and the identifier can be read back from it. |
| Service.DefaultNegativePromptIsBare | main.py:59 | Leaving out the negative prompt sends the bare prompt, one component at weight +1. |
| Service.OutputFilenameInjective | main.py:74-76 | Two requests get the same output file name only if they have the same identifier. |
| Service.ScanAnswers | main.py:99-117 | The flags are never both set. The filter flag is set exactly for a `Filtered` stream, and the saved flag exactly for a `Saved` one. The error message is the safety message exactly when the filter fired. The one file written holds the decisive image. |
| Service.GenerateImageEndpoint | main.py:56-132 | Readiness is checked first, then the key. Each failure returns its error with no call and no file. An invalid key lists the five keys in order. A valid key sends the `BuildPrompt` payload with the table's positive size. A raised call gives the failure response. An answer stream gives the saved, filtered or "no image" response that `StreamOutcome` dictates, echoing prompt, negative prompt, key and filename on success. |
| Standalone.SelectedAspectRatioResolves | generate_image.py:30-36 | The selected key `16:9_widescreen` resolves to 1344 by 768. |
| Standalone.ProcessAnswers | generate_image.py:62-83 | The flags are never both set. The filter flag is set exactly for a `Filtered` stream, and the saved flag exactly for a `Saved` one. At most the decisive image is written. The last-artifact description is `LastExaminedInfo` of the stream. |
| Standalone.RunScript | generate_image.py:26-86 | The script sends the weighted prompt pair at 1344 by 768 and scans as `ProcessAnswers` does. It reports the "no image artifact" diagnostic exactly when neither flag is set. The diagnostic then describes the stream's last artifact. |

## Left out

- Client construction (`startup_event`, the script's module-level setup), the environment writes and reads that go with it, and `exit()`. These are process setup and calls into the SDK. Readiness is a boolean input.
- The remote generation call itself. Its steps, `cfg_scale`, sample count and sampler constants are not carried in `GenerationRequest`, which keeps only the prompt payload and the size.
- Image decoding and saving with PIL, and disk I/O. A save is recorded as a `SavedFile` in the returned log.
- UUID generation. The identifier is an input.
- The SDK's numeric enumeration values for artifact types and finish reasons. Only "image" and "filter" are told apart, and every other tag is opaque.
- The text formatting of the last-artifact description. It is kept as the pair of tags it prints.
- Exceptions raised while the stream is being read, or while the image is being saved. Only an exception from the generation call, before any answer, is modelled (`Raised`).
- `read_root`, FastAPI routing, `print` and `warnings` output.
- Concurrency between service requests. Only the property that distinct identifiers give distinct file names is kept (`OutputFilenameInjective`).
- Floating-point prompt weights. They are the integers +1 and -1.
