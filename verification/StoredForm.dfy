/**
 The metadata a publication stores beside its HTML (static_routes.rs): a version,
 the digest of the HTML, a status and headers. The serializer, the digest and the
 header syntax belong to other libraries and are parameters.
 */
module StoredForm {
  import opened Bytes

  type Content = seq<Byte>

  /** The status and headers of a response. */
  datatype Parts = Parts(status: Option<nat>, headers: seq<(string, Content)>)

  datatype StoredResponse = StoredResponse(
    version: nat, digest: string, status: Option<nat>, headers: seq<(string, Content)>)

  datatype ParseError = Malformed | Inconsistent | InvalidPart

  datatype Codec = Codec(
    encode: StoredResponse -> Content,
    decode: Content -> Option<StoredResponse>,
    digest: Content -> string,
    headerName: string -> bool,
    headerValue: Content -> bool)

  /** What is relied on: what was written can be read back, and the digest has no collisions. */
  ghost predicate Reliable(c: Codec) {
    && (forall stored :: c.decode(c.encode(stored)) == Some(stored))
    && (forall x, y :: c.digest(x) == c.digest(y) ==> x == y)
  }

  /** The metadata bytes of a publication. */
  function MetadataOf(c: Codec, body: Content, parts: Parts): Content {
    c.encode(StoredResponse(1, c.digest(body), parts.status, parts.headers))
  }

  /** `parse_static_snapshot` without any memory. */
  function Parse(c: Codec, html: Content, metadata: Content): Result<Parts, ParseError> {
    match c.decode(metadata)
    case None => Err(Malformed)
    case Some(stored) =>
      if stored.version != 1 || stored.digest != c.digest(html) then Err(Inconsistent)
      else if stored.status.Some? && !(100 <= stored.status.value < 1000) then Err(InvalidPart)
      else if exists i :: 0 <= i < |stored.headers|
                          && !(c.headerName(stored.headers[i].0) && c.headerValue(stored.headers[i].1))
      then Err(InvalidPart)
      else Ok(Parts(stored.status, stored.headers))
  }

  /** A status of three digits. */
  predicate ProperStatus(status: Option<nat>) {
    status.Some? ==> 100 <= status.value <= 999
  }

  predicate ProperHeader(c: Codec, header: (string, Content)) {
    c.headerName(header.0) && c.headerValue(header.1)
  }

  /** Parts that a response can carry; those of a live response always can. */
  predicate Presentable(c: Codec, parts: Parts) {
    ProperStatus(parts.status) && forall header :: header in parts.headers ==> ProperHeader(c, header)
  }

  /**
   The digest check is a check of the body: metadata of a publication read beside some
   HTML gives back that publication's parts exactly if the HTML is its body, byte for
   byte; beside any other HTML, such as the one a stopped publisher left, it is refused.
   */
  lemma ParsePublished(c: Codec, html: Content, body: Content, parts: Parts)
    requires Reliable(c)
    ensures Parse(c, html, MetadataOf(c, body, parts))
         == if html != body then Err(Inconsistent) else if Presentable(c, parts) then Ok(parts) else Err(InvalidPart)
  {
    var stored := StoredResponse(1, c.digest(body), parts.status, parts.headers);
    assert c.decode(c.encode(stored)) == Some(stored);
    assert forall i :: 0 <= i < |parts.headers| ==> parts.headers[i] in parts.headers;
  }

  /**
   Every refusal has its own reason: what cannot be read is malformed; another version,
   or the digest of another body, is inconsistent; a status or a header no response can
   carry is invalid. Whatever is not refused is given back as it was stored.
   */
  lemma ParseRefusals(c: Codec, html: Content, stored: StoredResponse, body: Content)
    requires Reliable(c) && stored.digest == c.digest(body)
    ensures forall metadata :: Parse(c, html, metadata) == Err(Malformed) <==> c.decode(metadata).None?
    ensures
      var answer := Parse(c, html, c.encode(stored));
      && answer != Err(Malformed)
      && (answer == Err(Inconsistent) <==> stored.version != 1 || html != body)
      && (answer == Err(InvalidPart) <==>
            && stored.version == 1 && html == body
            && (!ProperStatus(stored.status) || exists header :: header in stored.headers && !ProperHeader(c, header)))
      && (answer.Ok? ==> stored.version == 1 && html == body
                         && answer.value == Parts(stored.status, stored.headers) && Presentable(c, answer.value))
  {
    assert c.decode(c.encode(stored)) == Some(stored);
    assert forall i :: 0 <= i < |stored.headers| ==> stored.headers[i] in stored.headers;
  }

  /** Two bodies never pass beside the same metadata. */
  lemma OneBodyPerMetadata(c: Codec, html: Content, other: Content, metadata: Content)
    requires Reliable(c) && !Parse(c, html, metadata).Err? && !Parse(c, other, metadata).Err?
    ensures html == other && Parse(c, html, metadata) == Parse(c, other, metadata)
  {
  }
}
