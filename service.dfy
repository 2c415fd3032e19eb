/** The HTTP generation service: the readiness gate, the aspect-ratio table,
    the request it sends and the scan of the streamed answer, as one call of
    the image-generation endpoint. */
module Service {
  import opened Artifacts
  import opened Requests

  /** The service's aspect-ratio table, in declaration order. */
  const AspectRatios: AspectRatioTable := [
    ("1:1_square", Resolution(1024, 1024)),
    ("16:9_widescreen", Resolution(1344, 768)),
    ("9:16_tall", Resolution(768, 1344)),
    ("3:2_landscape", Resolution(1216, 832)),
    ("2:3_portrait", Resolution(832, 1216))
  ]

  /** Defaults of the endpoint's optional parameters. */
  const DefaultNegativePrompt: string := ""
  const DefaultAspectRatioKey: string := "1:1_square"

  const NotInitializedError: string := "Stability API not initialized. Check server logs."
  const InvalidAspectRatioError: string := "Invalid aspect_ratio_key"
  const GeneratedMessage: string := "Image generated successfully!"
  const NoImageMessage: string := "No image generated."
  const SafetyFilterMessage: string := "Safety filter activated. Please modify prompt."
  const CouldNotGenerateDetails: string := "Could not generate or save image."
  const FailedToGenerateError: string := "Failed to generate image."

  /** The structured object the endpoint returns. */
  datatype Response =
    | NotInitialized(error: string, detail: string)
    | InvalidAspectRatio(error: string, availableKeys: seq<string>)
    | Generated(message: string, filename: string, prompt: string, negativePrompt: string, aspectRatio: string)
    | Failed(error: string, details: string)

  /** What the generation call does: it yields a stream of answers, or raises
      an exception whose text is carried along. */
  datatype ProviderReply = Answers(stream: Stream) | Raised(detail: string)

  lemma AspectRatiosWellFormed()
    ensures DistinctKeys(AspectRatios)
    ensures PositiveSizes(AspectRatios)
    ensures Keys(AspectRatios) == ["1:1_square", "16:9_widescreen", "9:16_tall", "3:2_landscape", "2:3_portrait"]
  {
  }

  /** Every key of the table resolves to its own entry. */
  lemma AspectRatioResolves(i: int)
    requires 0 <= i < |AspectRatios|
    ensures Lookup(AspectRatios, AspectRatios[i].0) == Some(AspectRatios[i].1)
  {
  }

  /** Omitting the negative prompt sends the bare prompt, a single +1 component. */
  lemma DefaultNegativePromptIsBare(prompt: string)
    ensures BuildPrompt(prompt, DefaultNegativePrompt) == Bare(prompt)
    ensures Components(BuildPrompt(prompt, DefaultNegativePrompt)) == [WeightedPrompt(prompt, 1)]
  {
  }

  lemma DefaultAspectRatioResolves()
    ensures Lookup(AspectRatios, DefaultAspectRatioKey) == Some(Resolution(1024, 1024))
  {
  }

  /** The credential counts as absent when the variable is unset or empty. */
  predicate KeyUnset(stabilityKey: Option<string>)
  {
    stabilityKey.None? || stabilityKey.value == []
  }

  /** The two halves of the detail text around the credential status. */
  const StatusPrefix: string := "STABILITY_KEY status: "
  const StatusSuffix: string := ". Please ensure it's set correctly when starting Uvicorn."

  /** The credential status reported when the handle is unset. */
  function KeyStatus(stabilityKey: Option<string>): (s: string)
    ensures |s| > 0 && s[0] == (if KeyUnset(stabilityKey) then 'N' else 'S')
  {
    if KeyUnset(stabilityKey) then "NOT SET or connection FAILED"
    else "Set, but connection FAILED on startup"
  }

  /** The explanation given when the client handle is unset: the credential
      status, as read now, between a fixed prefix and suffix. */
  function NotInitializedDetail(stabilityKey: Option<string>): (r: string)
    ensures |r| == |StatusPrefix| + |KeyStatus(stabilityKey)| + |StatusSuffix|
    ensures r[..|StatusPrefix|] == StatusPrefix
    ensures r[|StatusPrefix|..|StatusPrefix| + |KeyStatus(stabilityKey)|] == KeyStatus(stabilityKey)
    ensures r[|StatusPrefix| + |KeyStatus(stabilityKey)|..] == StatusSuffix
  {
    StatusPrefix + KeyStatus(stabilityKey) + StatusSuffix
  }

  /** The detail tells apart exactly whether the credential is present, nothing more. */
  lemma NotInitializedDetailReportsKey(k1: Option<string>, k2: Option<string>)
    ensures NotInitializedDetail(k1) == NotInitializedDetail(k2) <==> KeyUnset(k1) == KeyUnset(k2)
  {
  }

  /** The name of the file a request writes: the identifier between a fixed
      prefix and the `.png` extension, from which it can be read back. */
  function OutputFilename(uniqueId: string): (r: string)
    ensures "generated_image_" <= r
    ensures |r| == |uniqueId| + 20 && r[|r| - 4..] == ".png"
    ensures r[16..|r| - 4] == uniqueId
  {
    "generated_image_" + uniqueId + ".png"
  }

  /** Distinct identifiers give distinct file names, so two requests never
      write the same file. */
  lemma OutputFilenameInjective(id1: string, id2: string)
    ensures OutputFilename(id1) == OutputFilename(id2) <==> id1 == id2
  {
  }

  /** The scan of the answer stream: the first filtered artifact stops it with
      the safety message and nothing saved; otherwise the first image artifact
      is saved under the output name and stops it. */
  method ScanAnswers(answers: Stream, outputFilename: string)
    returns (imageSavedSuccessfully: bool, safetyFilterTriggered: bool, errorMessage: string, written: seq<SavedFile>)
    ensures !(imageSavedSuccessfully && safetyFilterTriggered)
    ensures safetyFilterTriggered <==> StreamOutcome(answers) == Filtered
    ensures imageSavedSuccessfully <==> StreamOutcome(answers).Saved?
    ensures errorMessage == if safetyFilterTriggered then SafetyFilterMessage else NoImageMessage
    ensures written == SavesFor(StreamOutcome(answers), outputFilename)
  {
    imageSavedSuccessfully := false;
    safetyFilterTriggered := false;
    errorMessage := NoImageMessage;
    written := [];
    for i := 0 to |answers|
      invariant !imageSavedSuccessfully && !safetyFilterTriggered
      invariant errorMessage == NoImageMessage && written == []
      invariant Classify(Flatten(answers[..i])) == Nothing
    {
      var resp := answers[i];
      assert Flatten(answers[..i]) + resp[..0] == Flatten(answers[..i]);
      for j := 0 to |resp|
        invariant !imageSavedSuccessfully && !safetyFilterTriggered
        invariant errorMessage == NoImageMessage && written == []
        invariant Classify(Flatten(answers[..i]) + resp[..j]) == Nothing
      {
        var artifact := resp[j];
        if artifact.finishReason == Filter {
          DecisiveArtifactDecides(answers, i, j);
          errorMessage := SafetyFilterMessage;
          safetyFilterTriggered := true;
          break;
        }
        if artifact.kind == Image {
          DecisiveArtifactDecides(answers, i, j);
          written := written + [SavedFile(outputFilename, artifact.binary)];
          imageSavedSuccessfully := true;
          break;
        }
        UndecisiveStep(answers, i, j);
      }
      if imageSavedSuccessfully || safetyFilterTriggered {
        break;
      }
      assert resp[..|resp|] == resp;
      PrefixStep(answers, i);
    }
    assert answers[..|answers|] == answers;
  }

  /** One call of the generation endpoint. `clientInitialized` says whether
      the process-wide client handle is set, `stabilityKey` is the credential
      variable as read now, `uniqueId` the random identifier of the output
      file, and `reply` what the generation call answers. `request` is the
      generation call made, if any; `written` the image files saved. */
  method GenerateImageEndpoint(
    clientInitialized: bool, stabilityKey: Option<string>,
    prompt: string, negativePrompt: string, aspectRatioKey: string,
    uniqueId: string, reply: ProviderReply)
    returns (response: Response, request: Option<GenerationRequest>, written: seq<SavedFile>)
    ensures !clientInitialized ==>
      response == NotInitialized(NotInitializedError, NotInitializedDetail(stabilityKey))
    ensures clientInitialized && aspectRatioKey !in Keys(AspectRatios) ==>
      response == InvalidAspectRatio(InvalidAspectRatioError,
        ["1:1_square", "16:9_widescreen", "9:16_tall", "3:2_landscape", "2:3_portrait"])
    ensures request.Some? <==> clientInitialized && aspectRatioKey in Keys(AspectRatios)
    ensures request.None? ==> written == []
    ensures request.Some? ==>
      request.value.prompt == BuildPrompt(prompt, negativePrompt) &&
      Lookup(AspectRatios, aspectRatioKey) == Some(Resolution(request.value.width, request.value.height)) &&
      request.value.width > 0 && request.value.height > 0
    ensures request.Some? && reply.Raised? ==>
      response == Failed(FailedToGenerateError, reply.detail) && written == []
    ensures request.Some? && reply.Answers? ==>
      written == SavesFor(StreamOutcome(reply.stream), OutputFilename(uniqueId)) &&
      response == match StreamOutcome(reply.stream)
        case Saved(_) => Generated(GeneratedMessage, OutputFilename(uniqueId), prompt, negativePrompt, aspectRatioKey)
        case Filtered => Failed(SafetyFilterMessage, CouldNotGenerateDetails)
        case Nothing => Failed(NoImageMessage, CouldNotGenerateDetails)
  {
    if !clientInitialized {
      return NotInitialized(NotInitializedError, NotInitializedDetail(stabilityKey)), None, [];
    }
    var resolution := Lookup(AspectRatios, aspectRatioKey);
    if resolution.None? {
      AspectRatiosWellFormed();
      return InvalidAspectRatio(InvalidAspectRatioError, Keys(AspectRatios)), None, [];
    }
    AspectRatiosWellFormed();
    LookupPositive(AspectRatios, aspectRatioKey);
    var outputFilename := OutputFilename(uniqueId);
    request := Some(GenerationRequest(BuildPrompt(prompt, negativePrompt), resolution.value.width, resolution.value.height));
    match reply
    case Raised(detail) =>
      response := Failed(FailedToGenerateError, detail);
      written := [];
    case Answers(answers) =>
      var imageSavedSuccessfully, safetyFilterTriggered, errorMessage;
      imageSavedSuccessfully, safetyFilterTriggered, errorMessage, written := ScanAnswers(answers, outputFilename);
      if imageSavedSuccessfully {
        response := Generated(GeneratedMessage, outputFilename, prompt, negativePrompt, aspectRatioKey);
      } else {
        response := Failed(errorMessage, CouldNotGenerateDetails);
      }
  }
}
