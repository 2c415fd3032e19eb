/** The standalone generator: one generation with a fixed prompt pair and
    aspect ratio, whose answer stream is scanned while it keeps a description
    of the last artifact it examined. */
module Standalone {
  import opened Artifacts
  import opened Requests

  const PromptText: string := "A fantasy castle on a floating island, vibrant colors, digital art"
  const NegativePromptText: string := "blurry, ugly, deformed, watermark, signature, text"

  /** The script's own, shorter aspect-ratio table. */
  const ScriptAspectRatios: AspectRatioTable := [
    ("1:1_square", Resolution(1024, 1024)),
    ("16:9_widescreen", Resolution(1344, 768)),
    ("9:16_tall", Resolution(768, 1344))
  ]

  const SelectedAspectRatio: string := "16:9_widescreen"
  const ScriptOutputFilename: string := "castle_widescreen.png"

  /** The selected key is in the table and resolves to 1344 by 768. */
  lemma SelectedAspectRatioResolves()
    ensures Lookup(ScriptAspectRatios, SelectedAspectRatio) == Some(Resolution(1344, 768))
  {
  }

  /** The scan loop of the script: stops at the first filtered artifact
      (nothing saved) or else the first image artifact (saved once), and leaves
      behind a description of the last artifact it looked at. */
  method ProcessAnswers(answers: Stream, outputFilename: string)
    returns (imageSaved: bool, safetyFilterActivated: bool, lastArtifactTypeInfo: ArtifactInfo, written: seq<SavedFile>)
    ensures !(imageSaved && safetyFilterActivated)
    ensures safetyFilterActivated <==> StreamOutcome(answers) == Filtered
    ensures imageSaved <==> StreamOutcome(answers).Saved?
    ensures written == SavesFor(StreamOutcome(answers), outputFilename)
    ensures lastArtifactTypeInfo == LastExaminedInfo(Flatten(answers))
  {
    imageSaved := false;
    safetyFilterActivated := false;
    lastArtifactTypeInfo := NoSpecificArtifact;
    written := [];
    for i := 0 to |answers|
      invariant !imageSaved && !safetyFilterActivated && written == []
      invariant Classify(Flatten(answers[..i])) == Nothing
      invariant lastArtifactTypeInfo == DescribeLast(Flatten(answers[..i]))
    {
      var resp := answers[i];
      assert Flatten(answers[..i]) + resp[..0] == Flatten(answers[..i]);
      for j := 0 to |resp|
        invariant !imageSaved && !safetyFilterActivated && written == []
        invariant Classify(Flatten(answers[..i]) + resp[..j]) == Nothing
        invariant lastArtifactTypeInfo == DescribeLast(Flatten(answers[..i]) + resp[..j])
      {
        var artifact := resp[j];
        lastArtifactTypeInfo := Describe(artifact);
        if artifact.finishReason == Filter {
          DecisiveArtifactDecides(answers, i, j);
          safetyFilterActivated := true;
          break;
        } else if artifact.kind == Image {
          DecisiveArtifactDecides(answers, i, j);
          written := written + [SavedFile(outputFilename, artifact.binary)];
          imageSaved := true;
          break;
        }
        UndecisiveStep(answers, i, j);
      }
      if imageSaved || safetyFilterActivated {
        break;
      }
      assert resp[..|resp|] == resp;
      PrefixStep(answers, i);
    }
    if !imageSaved && !safetyFilterActivated {
      assert answers[..|answers|] == answers;
      LastInfoOfUndecided(Flatten(answers));
    }
  }

  /** The script after a successful connection, given the stream the
      generation call answers. `noImageReport` is the diagnostic printed when
      neither flag was set, carrying the last artifact description. */
  method RunScript(answers: Stream)
    returns (request: GenerationRequest, imageSaved: bool, safetyFilterActivated: bool,
             lastArtifactTypeInfo: ArtifactInfo, written: seq<SavedFile>, noImageReport: Option<ArtifactInfo>)
    ensures request.width == 1344 && request.height == 768
    ensures request.prompt == Weighted([WeightedPrompt(PromptText, 1), WeightedPrompt(NegativePromptText, -1)])
    ensures !(imageSaved && safetyFilterActivated)
    ensures safetyFilterActivated <==> StreamOutcome(answers) == Filtered
    ensures imageSaved <==> StreamOutcome(answers).Saved?
    ensures written == SavesFor(StreamOutcome(answers), ScriptOutputFilename)
    ensures lastArtifactTypeInfo == LastExaminedInfo(Flatten(answers))
    ensures noImageReport.Some? <==> StreamOutcome(answers) == Nothing
    ensures noImageReport.Some? ==> noImageReport.value == DescribeLast(Flatten(answers))
  {
    SelectedAspectRatioResolves();
    var resolution := Lookup(ScriptAspectRatios, SelectedAspectRatio).value;
    request := GenerationRequest(BuildPrompt(PromptText, NegativePromptText), resolution.width, resolution.height);
    imageSaved, safetyFilterActivated, lastArtifactTypeInfo, written := ProcessAnswers(answers, ScriptOutputFilename);
    if !imageSaved && !safetyFilterActivated {
      LastInfoOfUndecided(Flatten(answers));
      noImageReport := Some(lastArtifactTypeInfo);
    } else {
      noImageReport := None;
    }
  }
}
