/** The response stream of the remote generation service and the pure
    specification of how both clients interpret it: the first artifact, in
    arrival order across all chunks, that is either safety-filtered or an
    image decides the outcome; a filter verdict takes precedence over the
    artifact's image type. */
module Artifacts {

  datatype Option<T> = None | Some(value: T)

  /** The binary payload of an artifact, kept opaque (image decoding is not modelled). */
  type Payload = seq<bv8>

  /** The artifact type tag; only the image tag is ever compared against. */
  datatype ArtifactType = Image | OtherType(name: string)

  /** The finish-reason tag; only the safety-filter reason is ever compared against. */
  datatype FinishReason = Filter | OtherReason(name: string)

  datatype Artifact = Artifact(kind: ArtifactType, finishReason: FinishReason, binary: Payload)

  /** One streamed answer holds a list of artifacts; the stream is a list of answers. */
  type Chunk = seq<Artifact>
  type Stream = seq<Chunk>

  /** The three-way classification of a response stream. */
  datatype Outcome = Filtered | Saved(payload: Payload) | Nothing

  /** An image file written to disk: its name and the payload it was decoded from. */
  datatype SavedFile = SavedFile(filename: string, payload: Payload)

  /** The diagnostic the standalone script keeps about the last artifact it examined. */
  datatype ArtifactInfo = NoSpecificArtifact | TypeAndReason(kind: ArtifactType, finishReason: FinishReason)

  /** All artifacts of the stream, chunk after chunk, in arrival order. */
  function Flatten(s: Stream): seq<Artifact>
  {
    if s == [] then [] else s[0] + Flatten(s[1..])
  }

  predicate IsFilter(a: Artifact)
  {
    a.finishReason == Filter
  }

  /** An artifact that stops the scan: filtered, or an image. */
  predicate IsDecisive(a: Artifact)
  {
    a.finishReason == Filter || a.kind == Image
  }

  /** What a single artifact decides on its own. The filter test comes first,
      so an artifact that is both filtered and an image counts as filtered. */
  function Decide(a: Artifact): (r: Outcome)
    ensures r == Nothing <==> !IsDecisive(a)
    ensures IsFilter(a) ==> r == Filtered
    ensures r.Saved? <==> !IsFilter(a) && a.kind == Image
    ensures r.Saved? ==> r.payload == a.binary
  {
    if a.finishReason == Filter then Filtered
    else if a.kind == Image then Saved(a.binary)
    else Nothing
  }

  /** The outcome of scanning a flat artifact sequence from the front. */
  function Classify(s: seq<Artifact>): (r: Outcome)
    ensures r == Filtered ==> exists i :: 0 <= i < |s| && IsFilter(s[i])
    ensures r.Saved? ==> exists i :: 0 <= i < |s| && !IsFilter(s[i]) && s[i].kind == Image && s[i].binary == r.payload
  {
    if s == [] then Nothing
    else if IsDecisive(s[0]) then Decide(s[0])
    else Classify(s[1..])
  }

  /** The outcome of a whole response stream. */
  function StreamOutcome(answers: Stream): (r: Outcome)
    ensures answers == [] ==> r == Nothing
    ensures r == Nothing <==> forall i :: 0 <= i < |Flatten(answers)| ==>
      !IsFilter(Flatten(answers)[i]) && Flatten(answers)[i].kind != Image
  {
    StreamOutcomeNothing(answers);
    Classify(Flatten(answers))
  }

  /** A stream decides nothing exactly when none of its artifacts, across all
      chunks, is filtered or an image. */
  lemma StreamOutcomeNothing(answers: Stream)
    ensures Classify(Flatten(answers)) == Nothing <==> forall i :: 0 <= i < |Flatten(answers)| ==>
      !IsFilter(Flatten(answers)[i]) && Flatten(answers)[i].kind != Image
  {
    ClassifyNothing(Flatten(answers));
  }

  /** The files a scan with this outcome writes: one for a saved image, none otherwise. */
  function SavesFor(o: Outcome, filename: string): (w: seq<SavedFile>)
    ensures |w| <= 1
    ensures |w| == 1 <==> o.Saved?
    ensures o.Saved? ==> w[0] == SavedFile(filename, o.payload)
  {
    if o.Saved? then [SavedFile(filename, o.payload)] else []
  }

  /** k is the position of the first decisive artifact of s. */
  ghost predicate FirstDecisive(s: seq<Artifact>, k: int)
  {
    0 <= k < |s| && IsDecisive(s[k]) && forall j :: 0 <= j < k ==> !IsDecisive(s[j])
  }

  /** The artifacts a scan looks at: everything up to and including the first
      decisive one, or the whole sequence when there is none. */
  function Examined(s: seq<Artifact>): (e: seq<Artifact>)
    ensures e <= s
    ensures Classify(s) == Nothing ==> e == s
    ensures Classify(s) != Nothing ==> e != [] && Classify(s) == Decide(e[|e| - 1])
  {
    if s == [] then []
    else if IsDecisive(s[0]) then [s[0]]
    else [s[0]] + Examined(s[1..])
  }

  function Describe(a: Artifact): ArtifactInfo
  {
    TypeAndReason(a.kind, a.finishReason)
  }

  /** The description of the last element of s, or the initial marker when s is empty. */
  function DescribeLast(s: seq<Artifact>): ArtifactInfo
  {
    if s == [] then NoSpecificArtifact else Describe(s[|s| - 1])
  }

  /** The diagnostic left behind by a scan of s: the last artifact examined. */
  function LastExaminedInfo(s: seq<Artifact>): (r: ArtifactInfo)
    ensures r == NoSpecificArtifact <==> s == []
    ensures r != NoSpecificArtifact ==> exists i :: 0 <= i < |s| && r == Describe(s[i])
  {
    DescribeLast(Examined(s))
  }

  // ---------------------------------------------------------------------------
  // Properties of the specification
  // ---------------------------------------------------------------------------

  /** The outcome is exactly what the first decisive artifact decides. */
  lemma {:induction false} ClassifyIsFirstDecisive(s: seq<Artifact>, k: int)
    requires FirstDecisive(s, k)
    ensures Classify(s) == Decide(s[k])
  {
    if k > 0 {
      assert !IsDecisive(s[0]);
      assert FirstDecisive(s[1..], k - 1) by {
        forall j | 0 <= j < k - 1 ensures !IsDecisive(s[1..][j]) {
          assert s[1..][j] == s[j + 1];
        }
      }
      ClassifyIsFirstDecisive(s[1..], k - 1);
    }
  }

  /** Nothing is decided exactly when no artifact is filtered and none is an image. */
  lemma {:induction false} ClassifyNothing(s: seq<Artifact>)
    ensures Classify(s) == Nothing <==> forall i :: 0 <= i < |s| ==> !IsFilter(s[i]) && s[i].kind != Image
  {
    if s != [] {
      ClassifyNothing(s[1..]);
      if !IsDecisive(s[0]) {
        forall i | 0 <= i < |s| && !(!IsFilter(s[i]) && s[i].kind != Image)
          ensures Classify(s) != Nothing
        {
          assert i != 0;
          assert s[1..][i - 1] == s[i];
        }
      }
    }
  }

  /** Scanning a concatenation: the first part decides if it can, otherwise the second. */
  lemma {:induction false} ClassifyAppend(p: seq<Artifact>, q: seq<Artifact>)
    ensures Classify(p + q) == if Classify(p) == Nothing then Classify(q) else Classify(p)
  {
    if p == [] {
      assert p + q == q;
    } else {
      assert (p + q)[0] == p[0];
      assert (p + q)[1..] == p[1..] + q;
      ClassifyAppend(p[1..], q);
    }
  }

  /** A prefix that decides nothing is examined in full before the rest is looked at. */
  lemma {:induction false} ExaminedAppend(p: seq<Artifact>, q: seq<Artifact>)
    requires Classify(p) == Nothing
    ensures Examined(p + q) == p + Examined(q)
  {
    if p != [] {
      var head, tail := p[0], p[1..];
      assert p == [head] + tail;
      assert !IsDecisive(head) && Classify(tail) == Nothing;
      assert p + q == [head] + (tail + q);
      ExaminedAppend(tail, q);
      assert Examined([head] + (tail + q)) == [head] + Examined(tail + q) by {
        assert ([head] + (tail + q))[0] == head;
        assert ([head] + (tail + q))[1..] == tail + q;
      }
    } else {
      assert p + q == q;
    }
  }

  lemma {:induction false} FlattenAppend(s: Stream, t: Stream)
    ensures Flatten(s + t) == Flatten(s) + Flatten(t)
  {
    if s == [] {
      assert s + t == t;
    } else {
      assert (s + t)[0] == s[0];
      assert (s + t)[1..] == s[1..] + t;
      FlattenAppend(s[1..], t);
    }
  }

  /** A stream of chunks that all hold no artifacts decides nothing. */
  lemma {:induction false} EmptyChunksDecideNothing(answers: Stream)
    requires forall i :: 0 <= i < |answers| ==> answers[i] == []
    ensures Flatten(answers) == []
    ensures StreamOutcome(answers) == Nothing
    ensures LastExaminedInfo(Flatten(answers)) == NoSpecificArtifact
  {
    if answers != [] {
      EmptyChunksDecideNothing(answers[1..]);
    }
  }

  /** A filtered artifact after a prefix that decided nothing gives Filtered,
      whatever follows it and whatever its own type tag is. */
  lemma FilterTakesPrecedence(p: seq<Artifact>, a: Artifact, rest: seq<Artifact>)
    requires Classify(p) == Nothing
    requires IsFilter(a)
    ensures Classify(p + [a] + rest) == Filtered
  {
    assert p + [a] + rest == p + ([a] + rest);
    ClassifyAppend(p, [a] + rest);
  }

  /** The first unfiltered image after a prefix that decided nothing is the one saved. */
  lemma FirstImageIsSaved(p: seq<Artifact>, a: Artifact, rest: seq<Artifact>)
    requires Classify(p) == Nothing
    requires !IsFilter(a) && a.kind == Image
    ensures Classify(p + [a] + rest) == Saved(a.binary)
  {
    assert p + [a] + rest == p + ([a] + rest);
    ClassifyAppend(p, [a] + rest);
  }

  /** The scan looks at exactly the artifacts up to and including the first decisive one. */
  lemma {:induction false} ExaminedUpToFirstDecisive(s: seq<Artifact>, k: int)
    requires FirstDecisive(s, k)
    ensures Examined(s) == s[..k + 1]
  {
    if k > 0 {
      assert !IsDecisive(s[0]);
      assert FirstDecisive(s[1..], k - 1) by {
        forall j | 0 <= j < k - 1 ensures !IsDecisive(s[1..][j]) {
          assert s[1..][j] == s[j + 1];
        }
      }
      ExaminedUpToFirstDecisive(s[1..], k - 1);
      assert [s[0]] + s[1..][..k] == s[..k + 1];
    }
  }

  /** The diagnostic describes the first decisive artifact when there is one. */
  lemma LastInfoOfDecisive(s: seq<Artifact>, k: int)
    requires FirstDecisive(s, k)
    ensures LastExaminedInfo(s) == Describe(s[k])
  {
    ExaminedUpToFirstDecisive(s, k);
  }

  /** With no decisive artifact the diagnostic describes the last artifact of
      all, and keeps its initial marker when there were none. */
  lemma LastInfoOfUndecided(s: seq<Artifact>)
    requires Classify(s) == Nothing
    ensures LastExaminedInfo(s) == DescribeLast(s)
    ensures LastExaminedInfo(s) == NoSpecificArtifact <==> s == []
  {
  }

  // ---------------------------------------------------------------------------
  // Stepping lemmas for the nested scan loops
  // ---------------------------------------------------------------------------

  /** Finishing chunk i extends the flattened prefix by that chunk. */
  lemma PrefixStep(answers: Stream, i: int)
    requires 0 <= i < |answers|
    ensures Flatten(answers[..i + 1]) == Flatten(answers[..i]) + answers[i]
  {
    assert answers[..i + 1] == answers[..i] + [answers[i]];
    FlattenAppend(answers[..i], [answers[i]]);
    assert Flatten([answers[i]]) == answers[i] + Flatten([]);
  }

  /** The flattened stream split around artifact j of chunk i. */
  lemma {:induction false} SplitAt(answers: Stream, i: int, j: int)
    requires 0 <= i < |answers| && 0 <= j < |answers[i]|
    ensures Flatten(answers) ==
      Flatten(answers[..i]) + answers[i][..j] + [answers[i][j]] + (answers[i][j + 1..] + Flatten(answers[i + 1..]))
  {
    var c := answers[i];
    assert answers == answers[..i] + ([c] + answers[i + 1..]);
    FlattenAppend(answers[..i], [c] + answers[i + 1..]);
    assert ([c] + answers[i + 1..])[0] == c;
    assert ([c] + answers[i + 1..])[1..] == answers[i + 1..];
    assert c == c[..j] + [c[j]] + c[j + 1..];
  }

  /** A decisive artifact reached by the scan decides the whole stream and is
      the one the diagnostic describes. */
  lemma DecisiveArtifactDecides(answers: Stream, i: int, j: int)
    requires 0 <= i < |answers| && 0 <= j < |answers[i]|
    requires Classify(Flatten(answers[..i]) + answers[i][..j]) == Nothing
    requires IsDecisive(answers[i][j])
    ensures StreamOutcome(answers) == Decide(answers[i][j])
    ensures LastExaminedInfo(Flatten(answers)) == Describe(answers[i][j])
  {
    var p := Flatten(answers[..i]) + answers[i][..j];
    var a := answers[i][j];
    var rest := answers[i][j + 1..] + Flatten(answers[i + 1..]);
    SplitAt(answers, i, j);
    assert Flatten(answers) == p + ([a] + rest);
    ClassifyAppend(p, [a] + rest);
    ExaminedAppend(p, [a] + rest);
    assert Examined([a] + rest) == [a];
  }

  /** An artifact that decides nothing keeps the scanned prefix undecided. */
  lemma UndecisiveStep(answers: Stream, i: int, j: int)
    requires 0 <= i < |answers| && 0 <= j < |answers[i]|
    requires Classify(Flatten(answers[..i]) + answers[i][..j]) == Nothing
    requires !IsDecisive(answers[i][j])
    ensures Classify(Flatten(answers[..i]) + answers[i][..j + 1]) == Nothing
    ensures DescribeLast(Flatten(answers[..i]) + answers[i][..j + 1]) == Describe(answers[i][j])
  {
    var p := Flatten(answers[..i]) + answers[i][..j];
    assert Flatten(answers[..i]) + answers[i][..j + 1] == p + [answers[i][j]];
    ClassifyAppend(p, [answers[i][j]]);
  }
}
