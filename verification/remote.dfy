/**
  The AI service as the enhancer and the background remover see it: the shape
  of a generate-content response, the outcome of the call (a response or a
  thrown error), and the scan both tools run over the first candidate's parts.
  The call itself is never made here; its outcome is always an input.
 */
module Remote {
  import opened Common

  /** `part.inlineData`: a base64 payload and its MIME type. */
  datatype InlineData = InlineData(mimeType: string, data: string)

  datatype Part = Part(inlineData: Option<InlineData>, text: Option<string>)

  datatype Content = Content(parts: Option<seq<Part>>)

  datatype Candidate = Candidate(content: Option<Content>)

  datatype Response = Response(candidates: Option<seq<Candidate>>)

  /** What awaiting the call produced: a response, or an error whose
      `message` is given (the empty string when the error had none). */
  datatype CallOutcome = Replied(response: Response) | Threw(message: string)

  /** `window.aistudio`: absent outside the hosting studio, otherwise it
      reports whether a key is selected. */
  datatype KeyHost = NoHost | Host(hasKey: bool)

  /** The request a run sends: the picked file's MIME type and the prompt. */
  datatype Request = Request(mimeType: string, prompt: string)

  /** A run handler's first half: the state it leaves, and the request it
      sends when it gets as far as calling the service. */
  datatype Launch<S> = Launch(state: S, request: Option<Request>)

  /** `response.candidates?.[0]?.content?.parts`, with every missing link
      read as "no parts" (the loop then runs zero times). */
  function CandidateParts(r: Response): (parts: seq<Part>)
    ensures parts != [] ==> r.candidates.Some? && |r.candidates.value| > 0
    ensures parts != [] ==> r.candidates.value[0].content.Some?
    ensures parts != [] ==> r.candidates.value[0].content.value.parts == Some(parts)
  {
    match r.candidates
    case Some(cs) =>
      if |cs| == 0 then []
      else (match cs[0].content
            case Some(Content(Some(ps))) => ps
            case _ => [])
    case None => []
  }

  /** The index of the first part that carries inline data: the loop's `break`. */
  function FirstImageIndex(parts: seq<Part>): (r: Option<nat>)
    ensures r.Some? ==> r.value < |parts| && parts[r.value].inlineData.Some?
    ensures r.Some? ==> forall j :: 0 <= j < r.value ==> parts[j].inlineData.None?
    ensures r.None? <==> forall j :: 0 <= j < |parts| ==> parts[j].inlineData.None?
  {
    if parts == [] then None
    else if parts[0].inlineData.Some? then Some(0)
    else match FirstImageIndex(parts[1..])
      case Some(i) => Some(i + 1)
      case None => None
  }

  /** The inline data the scan picks up, if any. */
  function FirstImage(r: Response): (d: Option<InlineData>)
    ensures d.Some? <==> FirstImageIndex(CandidateParts(r)).Some?
    ensures d.Some? ==> d == CandidateParts(r)[FirstImageIndex(CandidateParts(r)).value].inlineData
  {
    var parts := CandidateParts(r);
    match FirstImageIndex(parts)
    case Some(i) => parts[i].inlineData
    case None => None
  }

  /** `data:${mimeType};base64,${data}`. */
  function DataUrl(d: InlineData): string {
    "data:" + d.mimeType + ";base64," + d.data
  }

  /** What a run ends with before the error classifier looks at it: the image
      part found, or the message of the error that the handler catches. */
  datatype ScanResult = Found(image: InlineData) | Failure(message: string)

  /** A thrown call, or a response without an image part (which the handler
      turns into a thrown `noImageMessage`), both end in the catch block. */
  function Scan(o: CallOutcome, noImageMessage: string): (r: ScanResult)
    ensures o.Threw? ==> r == Failure(o.message)
    ensures o.Replied? && FirstImage(o.response).Some? ==> r == Found(FirstImage(o.response).value)
    ensures o.Replied? && FirstImage(o.response).None? ==> r == Failure(noImageMessage)
  {
    match o
    case Threw(m) => Failure(m)
    case Replied(resp) =>
      match FirstImage(resp)
      case Some(d) => Found(d)
      case None => Failure(noImageMessage)
  }

  /** The scan stops at the first image part: whatever follows it, including
      other image parts, makes no difference. */
  lemma {:induction false} LaterPartsIgnored(parts: seq<Part>, later: seq<Part>)
    requires FirstImageIndex(parts).Some?
    ensures FirstImageIndex(parts + later) == FirstImageIndex(parts)
    decreases |parts|
  {
    assert (parts + later)[0] == parts[0];
    if parts[0].inlineData.None? {
      assert (parts + later)[1..] == parts[1..] + later;
      LaterPartsIgnored(parts[1..], later);
    }
  }

  /** Text parts before the image are skipped: the image found is the first
      one after them. */
  lemma {:induction false} TextPartsSkipped(texts: seq<Part>, image: Part, later: seq<Part>)
    requires forall j :: 0 <= j < |texts| ==> texts[j].inlineData.None?
    requires image.inlineData.Some?
    ensures FirstImageIndex(texts + [image] + later) == Some(|texts|)
    decreases |texts|
  {
    var parts := texts + [image] + later;
    if texts == [] {
      assert parts[0] == image;
    } else {
      assert parts[0] == texts[0];
      assert parts[1..] == texts[1..] + [image] + later;
      TextPartsSkipped(texts[1..], image, later);
    }
  }

  /** A response whose first candidate starts with an image part yields that
      image, whatever the rest of the parts and candidates hold. */
  lemma LeadingImageWins(d: InlineData, text: Option<string>, later: seq<Part>, others: seq<Candidate>)
    ensures var r := Response(Some([Candidate(Some(Content(Some([Part(Some(d), text)] + later))))] + others));
      Scan(Replied(r), "") == Found(d)
  {
    var parts := [Part(Some(d), text)] + later;
    var r := Response(Some([Candidate(Some(Content(Some(parts))))] + others));
    assert CandidateParts(r) == parts;
    assert parts[0].inlineData == Some(d);
  }
}
