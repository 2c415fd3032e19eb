/** What both clients send to the generation service: the prompt payload and
    the image size resolved from an aspect-ratio table. */
module Requests {
  import opened Artifacts

  datatype Resolution = Resolution(width: nat, height: nat)

  /** An aspect-ratio table in its declaration order; the order is what a
      listing of its keys shows. */
  type AspectRatioTable = seq<(string, Resolution)>

  function Keys(t: AspectRatioTable): (ks: seq<string>)
    ensures |ks| == |t|
    ensures forall i :: 0 <= i < |t| ==> ks[i] == t[i].0
  {
    if t == [] then [] else [t[0].0] + Keys(t[1..])
  }

  /** The table is a proper dictionary: no key occurs twice. */
  ghost predicate DistinctKeys(t: AspectRatioTable)
  {
    forall i, j :: 0 <= i < j < |t| ==> t[i].0 != t[j].0
  }

  /** Every width and height in the table is a usable image dimension. */
  ghost predicate PositiveSizes(t: AspectRatioTable)
  {
    forall i :: 0 <= i < |t| ==> t[i].1.width > 0 && t[i].1.height > 0
  }

  /** Dictionary membership and lookup in one step: None when the key is absent. */
  function Lookup(t: AspectRatioTable, key: string): (r: Option<Resolution>)
    ensures r.Some? <==> key in Keys(t)
    ensures r.Some? ==> (key, r.value) in t
  {
    if t == [] then None
    else if t[0].0 == key then Some(t[0].1)
    else Lookup(t[1..], key)
  }

  /** In a table with distinct keys, looking up an entry's key finds that entry. */
  lemma LookupFindsEntry(t: AspectRatioTable, i: int)
    requires DistinctKeys(t)
    requires 0 <= i < |t|
    ensures Lookup(t, t[i].0) == Some(t[i].1)
  {
  }

  /** A resolution found in a table with positive sizes is positive. */
  lemma LookupPositive(t: AspectRatioTable, key: string)
    requires PositiveSizes(t)
    requires Lookup(t, key).Some?
    ensures Lookup(t, key).value.width > 0 && Lookup(t, key).value.height > 0
  {
  }

  /** One text prompt with its weight: +1 steers towards it, -1 away from it. */
  datatype WeightedPrompt = WeightedPrompt(text: string, weight: int)

  /** The prompt argument of a generation call: a bare text, or a list of weighted prompts. */
  datatype PromptPayload = Bare(text: string) | Weighted(prompts: seq<WeightedPrompt>)

  /** The weighted prompts a payload stands for; a bare text is one prompt of the
      service's default weight +1. */
  function Components(p: PromptPayload): seq<WeightedPrompt>
  {
    match p
    case Bare(text) => [WeightedPrompt(text, 1)]
    case Weighted(prompts) => prompts
  }

  /** The prompt argument both clients build: the pair (prompt at +1, negative
      prompt at -1) when the negative prompt is non-empty, the bare prompt otherwise. */
  function BuildPrompt(prompt: string, negativePrompt: string): (r: PromptPayload)
    ensures r.Bare? <==> negativePrompt == []
    ensures |Components(r)| == if negativePrompt == [] then 1 else 2
    ensures Components(r)[0] == WeightedPrompt(prompt, 1)
    ensures negativePrompt != [] ==> Components(r)[1] == WeightedPrompt(negativePrompt, -1)
  {
    if negativePrompt != [] then
      Weighted([WeightedPrompt(prompt, 1), WeightedPrompt(negativePrompt, -1)])
    else
      Bare(prompt)
  }

  /** The texts steered towards and away from, split by the sign of their weight. */
  function PositiveTexts(ps: seq<WeightedPrompt>): seq<string>
  {
    if ps == [] then [] else (if ps[0].weight > 0 then [ps[0].text] else []) + PositiveTexts(ps[1..])
  }

  function NegativeTexts(ps: seq<WeightedPrompt>): seq<string>
  {
    if ps == [] then [] else (if ps[0].weight < 0 then [ps[0].text] else []) + NegativeTexts(ps[1..])
  }

  /** Whatever the negative prompt, the payload steers towards the prompt alone,
      and away from the negative prompt exactly when it is non-empty. */
  lemma PromptSteering(prompt: string, negativePrompt: string)
    ensures PositiveTexts(Components(BuildPrompt(prompt, negativePrompt))) == [prompt]
    ensures NegativeTexts(Components(BuildPrompt(prompt, negativePrompt))) ==
      if negativePrompt == [] then [] else [negativePrompt]
  {
    var cs := Components(BuildPrompt(prompt, negativePrompt));
    if negativePrompt == [] {
      assert cs[1..] == [];
    } else {
      assert cs[1..] == [WeightedPrompt(negativePrompt, -1)];
      assert cs[1..][1..] == [];
      assert PositiveTexts(cs[1..]) == [];
      assert NegativeTexts(cs[1..]) == [negativePrompt];
    }
  }

  /** The parameters of one generation call that the model keeps. */
  datatype GenerationRequest = GenerationRequest(prompt: PromptPayload, width: nat, height: nat)
}
