/** The validation of a posted message, internal/api/usermessage.go. */
module UserMessages {
  import opened Common
  import opened Text
  import opened Entities

  const MAX_TEXT: int := 8000
  const MAX_IMAGES: int := 4
  const MAX_IMAGE_BYTES: int := 5 * 1024 * 1024

  const IMAGE_TYPES: set<string> := {"image/jpeg", "image/png", "image/gif", "image/webp"}

  datatype SendImage = SendImage(mediaType: string, data: string)

  datatype SendRequest = SendRequest(text: string, images: seq<SendImage>)

  datatype BadMessage = TextTooLong | NothingSent | TooManyImages | BadType | BadBase64 | BadSize | LyingType

  /** How base64 decodes and what content type bytes have are given. */
  function ImageError(decode: string -> Option<Bytes>, detect: Bytes -> string, im: SendImage): Option<BadMessage> {
    if im.mediaType !in IMAGE_TYPES then Some(BadType)
    else if decode(im.data).None? then Some(BadBase64)
    else if !(1 <= |decode(im.data).value| <= MAX_IMAGE_BYTES) then Some(BadSize)
    else if detect(decode(im.data).value) != im.mediaType then Some(LyingType)
    else None
  }

  /** The error of the first bad image. */
  function FirstError(decode: string -> Option<Bytes>, detect: Bytes -> string, images: seq<SendImage>): Option<BadMessage> {
    if images == [] then None
    else if ImageError(decode, detect, images[0]).Some? then ImageError(decode, detect, images[0])
    else FirstError(decode, detect, images[1..])
  }

  /** What an error says of a photo: the first check that it fails. */
  predicate Faults(e: BadMessage, decode: string -> Option<Bytes>, detect: Bytes -> string, im: SendImage) {
    var known := im.mediaType == "image/jpeg" || im.mediaType == "image/png" || im.mediaType == "image/gif"
                 || im.mediaType == "image/webp";
    var data := decode(im.data);
    match e
    case BadType => !known
    case BadBase64 => known && data.None?
    case BadSize => known && data.Some? && (|data.value| == 0 || |data.value| > 5242880)
    case LyingType => known && data.Some? && 1 <= |data.value| <= 5242880 && detect(data.value) != im.mediaType
    case _ => false
  }

  predicate Fine(decode: string -> Option<Bytes>, detect: Bytes -> string, im: SendImage) {
    forall e :: !Faults(e, decode, detect, im)
  }

  /** The error is that of the first photo that has one. */
  lemma {:induction false} FirstErrorIff(decode: string -> Option<Bytes>, detect: Bytes -> string, images: seq<SendImage>, e: BadMessage)
    ensures FirstError(decode, detect, images) == Some(e)
            <==> exists i :: 0 <= i < |images| && Faults(e, decode, detect, images[i])
                             && forall k | 0 <= k < i :: Fine(decode, detect, images[k])
    decreases |images|
  {
    if images != [] {
      var rest := images[1..];
      FirstErrorIff(decode, detect, rest, e);
      ErrorIff(decode, detect, images[0], e);
      FineIff(decode, detect, images[0]);
      if i :| 0 <= i < |rest| && Faults(e, decode, detect, rest[i]) && forall k | 0 <= k < i :: Fine(decode, detect, rest[k]) {
        if Fine(decode, detect, images[0]) {
          assert Faults(e, decode, detect, images[i + 1]);
          forall k | 0 <= k < i + 1 ensures Fine(decode, detect, images[k]) {
            if k > 0 { assert images[k] == rest[k - 1]; }
          }
        }
      }
      if i :| 0 < i < |images| && Faults(e, decode, detect, images[i]) && forall k | 0 <= k < i :: Fine(decode, detect, images[k]) {
        assert Faults(e, decode, detect, rest[i - 1]);
        forall k | 0 <= k < i - 1 ensures Fine(decode, detect, rest[k]) { assert rest[k] == images[k + 1]; }
      }
    }
  }

  lemma ErrorIff(decode: string -> Option<Bytes>, detect: Bytes -> string, im: SendImage, e: BadMessage)
    ensures ImageError(decode, detect, im) == Some(e) <==> Faults(e, decode, detect, im)
  {}

  lemma FineIff(decode: string -> Option<Bytes>, detect: Bytes -> string, im: SendImage)
    ensures ImageError(decode, detect, im).None? <==> Fine(decode, detect, im)
  {
    if ImageError(decode, detect, im).Some? { ErrorIff(decode, detect, im, ImageError(decode, detect, im).value); }
  }

  /** A user message as every later step may rely on it. */
  predicate ValidUser(m: Message) {
    && m.role == "user" && |m.text| <= 8000 && TrimSpace(m.text) == m.text
    && |m.images| <= 4 && (m.text != "" || m.images != [])
    && forall i | 0 <= i < |m.images| ::
         m.images[i].mediaType in IMAGE_TYPES && 1 <= |m.images[i].data| <= 5242880
  }

  lemma TrimmedTwice(s: string)
    ensures TrimSpace(TrimSpace(s)) == TrimSpace(s)
  {
    TrimNothing(TrimSpace(s));
  }

  /** Accepts exactly the well-formed requests, with their photos in order; else says the first thing wrong. */
  method BuildUserMessage(body: SendRequest, decode: string -> Option<Bytes>, detect: Bytes -> string)
    returns (r: Result<Message, BadMessage>)
    ensures r.Ok? ==> ValidUser(r.value) && r.value.text == TrimSpace(body.text)
    ensures r.Ok? ==> |r.value.images| == |body.images| && forall i | 0 <= i < |body.images| ::
              && r.value.images[i].mediaType == body.images[i].mediaType
              && decode(body.images[i].data) == Some(r.value.images[i].data)
              && detect(r.value.images[i].data) == body.images[i].mediaType
    ensures r.Err? ==>
              r.error == if |TrimSpace(body.text)| > 8000 then TextTooLong
                         else if TrimSpace(body.text) == "" && body.images == [] then NothingSent
                         else if |body.images| > 4 then TooManyImages
                         else FirstError(decode, detect, body.images).GetOr(r.error)
    ensures r.Ok? <==> |TrimSpace(body.text)| <= 8000 && (TrimSpace(body.text) != "" || body.images != [])
                       && |body.images| <= 4 && FirstError(decode, detect, body.images) == None
  {
    var text := TrimSpace(body.text);
    TrimmedTwice(body.text);
    if |text| > MAX_TEXT { return Err(TextTooLong); }
    if text == "" && |body.images| == 0 { return Err(NothingSent); }
    if |body.images| > MAX_IMAGES { return Err(TooManyImages); }
    var images: seq<Image> := [];
    for i := 0 to |body.images|
      invariant |images| == i
      invariant FirstError(decode, detect, body.images) == FirstError(decode, detect, body.images[i..])
      invariant forall k | 0 <= k < i ::
          && images[k].mediaType == body.images[k].mediaType && images[k].mediaType in IMAGE_TYPES
          && decode(body.images[k].data) == Some(images[k].data)
          && detect(images[k].data) == body.images[k].mediaType
          && 1 <= |images[k].data| <= MAX_IMAGE_BYTES
    {
      assert body.images[i..][0] == body.images[i] && body.images[i..][1..] == body.images[i + 1..];
      var im := body.images[i];
      if im.mediaType !in IMAGE_TYPES { return Err(BadType); }
      var data := decode(im.data);
      if data.None? { return Err(BadBase64); }
      if |data.value| == 0 || |data.value| > MAX_IMAGE_BYTES { return Err(BadSize); }
      if detect(data.value) != im.mediaType { return Err(LyingType); }
      images := images + [Image(0, im.mediaType, data.value)];
    }
    return Ok(Message(0, "user", text, images, 0));
  }
}
