/** The response the download view returns: a streaming response whose status and
    headers are set after the `Range` request header has been inspected. */
module Delivery {
  import opened Wrappers
  import opened Text
  import opened Decimal
  import opened RangeHeader

  /** The content type the view passes to `StreamingHttpResponse`. */
  const OctetStream := "application/octet-stream"

  /** The status a fresh response carries. */
  const Ok := 200

  /** The header names the view writes. */
  const ContentType := "Content-Type"
  const ContentRange := "Content-Range"
  const ContentDisposition := "Content-Disposition"
  const AcceptRanges := "Accept-Ranges"
  const ContentLength := "Content-Length"

  /** The five header names are pairwise distinct. */
  lemma HeaderNamesDistinct()
    ensures ContentType != ContentRange && ContentType != ContentDisposition
    ensures ContentType != AcceptRanges && ContentType != ContentLength
    ensures ContentRange != ContentDisposition && ContentRange != AcceptRanges
    ensures ContentRange != ContentLength && ContentDisposition != AcceptRanges
    ensures ContentDisposition != ContentLength && AcceptRanges != ContentLength
  {
    assert |ContentType| == 12 && |ContentRange| == 13 && |ContentDisposition| == 19;
    assert |AcceptRanges| == 13 && |ContentLength| == 14;
    assert ContentRange[0] != AcceptRanges[0];
  }

  /** A streaming response: a status code and a header map the view updates in place. */
  class Response {
    var status: int
    var headers: map<string, string>

    /** `StreamingHttpResponse(..., content_type=t)`: status 200 and a `Content-Type` header. */
    constructor (contentType: string)
      ensures status == Ok && headers == map[ContentType := contentType]
    {
      status := Ok;
      headers := map[ContentType := contentType];
    }

    /** `response[name] = value`: that one header is set, everything else is kept. */
    method SetHeader(name: string, value: string)
      modifies this
      ensures headers == old(headers)[name := value]
      ensures status == old(status)
    {
      headers := headers[name := value];
    }
  }

  /** The three delivery headers, with `length` as `Content-Length`, added to `h0`. */
  function AddDeliveryHeaders(h0: map<string, string>, length: string): map<string, string> {
    h0[ContentDisposition := "attachment;"][AcceptRanges := "bytes"][ContentLength := length]
  }

  /** Adding the delivery headers adds exactly those three names, with their values, and
      keeps every other header. */
  lemma AddDeliveryHeadersFacts(h0: map<string, string>, length: string)
    ensures AddDeliveryHeaders(h0, length).Keys == h0.Keys + {ContentDisposition, AcceptRanges, ContentLength}
    ensures AddDeliveryHeaders(h0, length)[ContentDisposition] == "attachment;"
    ensures AddDeliveryHeaders(h0, length)[AcceptRanges] == "bytes"
    ensures AddDeliveryHeaders(h0, length)[ContentLength] == length
    ensures forall name | name in h0 && name !in {ContentDisposition, AcceptRanges, ContentLength} ::
      AddDeliveryHeaders(h0, length)[name] == h0[name]
  {
    HeaderNamesDistinct();
  }

  /** The headers a response ends up with once the view has added its three delivery headers
      to `h0`: `Content-Disposition: attachment;`, `Accept-Ranges: bytes` and `Content-Length`
      holding the file size in canonical decimal, which `int()` reads back as the size. Every
      other header is left as it was. */
  function DeliveryHeaders(h0: map<string, string>, fileSize: nat): (h: map<string, string>)
    ensures h.Keys == h0.Keys + {ContentDisposition, AcceptRanges, ContentLength}
    ensures h[ContentDisposition] == "attachment;" && h[AcceptRanges] == "bytes"
    ensures Canonical(h[ContentLength]) && DigitsValue(h[ContentLength]) == fileSize
    ensures ParseInt(h[ContentLength]) == Some(fileSize as int)
    ensures forall name | name in h0 && name !in {ContentDisposition, AcceptRanges, ContentLength} ::
      h[name] == h0[name]
  {
    var length := IntToString(fileSize);
    ReadCanonical(length);
    AddDeliveryHeadersFacts(h0, length);
    AddDeliveryHeaders(h0, length)
  }

  /** Lines 86-99 of the view: strip the `Range` header (absent reads as empty), match it, and
      take the 206 branch only when the first group is `bytes`, which a digit-only group never
      is; then add the three delivery headers. The status is never changed, and no
      `Content-Range` header is added. */
  method SetDeliveryHeaders(response: Response, rangeHeader: Option<string>, fileSize: nat)
    modifies response
    ensures response.status == old(response.status)
    ensures response.headers == DeliveryHeaders(old(response.headers), fileSize)
  {
    var header := Strip(rangeHeader.GetOr(""));
    var rangeMatch := MatchRange(header);
    if rangeMatch.Some? {
      var rangeType := rangeMatch.value.first;
      if rangeType == "bytes" {
        RangeTypeNeverBytes(header);
        assert false;
      }
    }
    response.SetHeader(ContentDisposition, "attachment;");
    response.SetHeader(AcceptRanges, "bytes");
    response.SetHeader(ContentLength, IntToString(fileSize));
  }

  /** The headers of a full download of `fileSize` bytes: exactly the octet-stream content
      type, the attachment disposition, byte ranges announced, and the size in canonical
      decimal, which `int()` reads back as the size. The last two conjuncts are the writer's
      and the reader's view of `Content-Length`: `str()` produced it, and a client reading it
      with `int()` gets the size. `ReadCanonical` derives the second from the first; both
      are kept so that callers need not unfold `int()`. */
  predicate FullDownloadHeaders(h: map<string, string>, fileSize: nat) {
    h.Keys == {ContentType, ContentDisposition, AcceptRanges, ContentLength}
    && h[ContentType] == OctetStream
    && h[ContentDisposition] == "attachment;" && h[AcceptRanges] == "bytes"
    && Canonical(h[ContentLength]) && DigitsValue(h[ContentLength]) == fileSize
    && ParseInt(h[ContentLength]) == Some(fileSize as int)
  }

  /** A header map that adds the three delivery headers to a lone octet-stream
      `Content-Type`, as `DeliveryHeaders` promises, holds the headers of a full download and
      no `Content-Range`. The requirements repeat the postconditions of `DeliveryHeaders` on
      purpose: stated about a plain map `h`, they keep the proof away from the body of
      `DeliveryHeaders`, which the verifier would otherwise unfold together with `int()`. */
  lemma DeliveredFromFresh(h0: map<string, string>, h: map<string, string>, fileSize: nat)
    requires h0 == map[ContentType := OctetStream]
    requires h.Keys == h0.Keys + {ContentDisposition, AcceptRanges, ContentLength}
    requires h[ContentDisposition] == "attachment;" && h[AcceptRanges] == "bytes"
    requires Canonical(h[ContentLength]) && DigitsValue(h[ContentLength]) == fileSize
    requires ParseInt(h[ContentLength]) == Some(fileSize as int)
    requires forall name | name in h0 && name !in {ContentDisposition, AcceptRanges, ContentLength} ::
      h[name] == h0[name]
    ensures FullDownloadHeaders(h, fileSize) && ContentRange !in h
  {
    HeaderNamesDistinct();
    assert ContentType in h0 && ContentType !in {ContentDisposition, AcceptRanges, ContentLength};
  }

  /** The delivery headers added to a fresh octet-stream response are those of a full
      download, with no `Content-Range`. */
  lemma FreshDeliveryHeaders(fileSize: nat)
    ensures FullDownloadHeaders(DeliveryHeaders(map[ContentType := OctetStream], fileSize), fileSize)
    ensures ContentRange !in DeliveryHeaders(map[ContentType := OctetStream], fileSize)
  {
    var h0 := map[ContentType := OctetStream];
    DeliveredFromFresh(h0, DeliveryHeaders(h0, fileSize), fileSize);
  }

  /** Whatever the `Range` header, a fresh octet-stream response gets status 200, the headers
      of a full download, and no `Content-Range`. */
  method Respond(rangeHeader: Option<string>, fileSize: nat) returns (response: Response)
    ensures response.status == Ok
    ensures FullDownloadHeaders(response.headers, fileSize)
    ensures ContentRange !in response.headers
  {
    response := new Response(OctetStream);
    SetDeliveryHeaders(response, rangeHeader, fileSize);
    FreshDeliveryHeaders(fileSize);
  }
}
