/** The request and event builders of `UploadFunctions` in
    public/video-ui/src/services/UploadsApi.js: the backend calls an upload
    makes (per-part credentials, part commit, abandonment) and the parameters
    of one part's transfer to S3. The S3 client itself is not modelled. */
module UploadsApi {
  import opened Wrappers
  import opened Js
  import opened PandaClient

  const UploadKeyHeader := "X-Upload-Key"
  const UploadUriHeader := "X-Upload-Uri"
  const PrivateAcl := "private"

  /** One part of an upload: the byte range `[start, end)` of the file and the
      S3 key it is stored under. */
  datatype Part = Part(start: int, end: int, key: string)

  /** Where the upload's parts are stored. */
  datatype Metadata = Metadata(bucket: string, region: string)

  /** An upload as created by the backend: its parts in upload order. */
  datatype Upload = Upload(id: string, parts: seq<Part>, metadata: Metadata)

  /** The browser `File` being uploaded, as far as the upload reads it. */
  datatype File = File(name: string, size: nat)

  /** Temporary credentials issued for one part. */
  datatype Credentials = Credentials(temporaryAccessId: string, temporarySecretKey: string, sessionToken: string)

  /** The bytes `[from, to)` of the file. */
  datatype ByteRange = ByteRange(from: nat, to: nat)

  /** What `s3.upload(params)` is given for one part: the S3 client's bucket,
      region and credentials, and the `Key`, `Body`, `ACL` and
      `Metadata.original` parameters. */
  datatype TransferParams = TransferParams(
    bucket: string,
    region: string,
    credentials: Credentials,
    key: string,
    body: ByteRange,
    acl: string,
    original: string)

  /** One index argument of `Blob.slice` resolved against the blob size, as the
      File API defines it: negative indices count back from the end, and the
      result is clamped to `[0, size]`. */
  function SliceIndex(i: int, size: nat): (r: nat)
    ensures r <= size
    ensures 0 <= i <= size ==> r == i
    ensures i > size ==> r == size
    ensures i < 0 ==> r == (if size + i < 0 then 0 else size + i)
  {
    if i < 0 then (if size + i < 0 then 0 else size + i)
    else if i < size then i
    else size
  }

  /** `file.slice(start, end)`: the bytes between the resolved indices, empty
      when the end resolves before the start. */
  function Slice(file: File, start: int, end: int): (r: ByteRange)
    ensures r.from <= r.to <= file.size
    ensures 0 <= start <= end <= file.size ==> r == ByteRange(start, end)
    ensures SliceIndex(end, file.size) <= SliceIndex(start, file.size) ==> r.from == r.to
  {
    var from := SliceIndex(start, file.size);
    var to := SliceIndex(end, file.size);
    ByteRange(from, if to < from then from else to)
  }

  /** The parameters of `s3.upload` for `part`, with the S3 client built by
      `getS3` from the upload's metadata and the part's fresh credentials. */
  function TransferFor(upload: Upload, part: Part, file: File, credentials: Credentials): (p: TransferParams)
    ensures p.key == part.key && p.body == Slice(file, part.start, part.end)
    ensures p.credentials == credentials && p.acl == PrivateAcl && p.original == file.name
    ensures p.bucket == upload.metadata.bucket && p.region == upload.metadata.region
  {
    TransferParams(upload.metadata.bucket, upload.metadata.region, credentials,
                   part.key, Slice(file, part.start, part.end), PrivateAcl, file.name)
  }

  function UploadUrl(id: string): string {
    "/api2/uploads/" + id
  }

  /** `getCredentials(id, key)`: the credentials for one part, identified by
      its key. */
  function GetCredentials(id: string, key: string): (b: ReqwestBody)
    ensures b.url == Some(UploadUrl(id) + "/credentials") && b.httpMethod == Some("post")
    ensures b.headers == Some(map[UploadKeyHeader := key])
    ensures b.contentType.None? && !Truthy(b.data)
  {
    ReqwestBody(Some(UploadUrl(id) + "/credentials"), Some("post"), None,
                Some(map[UploadKeyHeader := key]), Undefined)
  }

  /** The headers of `completePart`: always the part key, and the continuation
      token only when it is truthy. */
  function CompleteHeaders(key: string, uploadUri: Option<string>): (h: map<string, string>)
    ensures UploadKeyHeader in h && h[UploadKeyHeader] == key
    ensures UploadUriHeader in h <==> Truthy(OfText(uploadUri))
    ensures UploadUriHeader in h ==> h[UploadUriHeader] == uploadUri.value
    ensures h.Keys <= {UploadKeyHeader, UploadUriHeader}
  {
    var headers := map[UploadKeyHeader := key];
    if Truthy(OfText(uploadUri)) then headers[UploadUriHeader := uploadUri.value] else headers
  }

  /** `completePart(id, key, uploadUri)`: commit one part, passing the token
      the previous commit returned. */
  function CompletePart(id: string, key: string, uploadUri: Option<string>): (b: ReqwestBody)
    ensures b.url == Some(UploadUrl(id) + "/complete") && b.httpMethod == Some("post")
    ensures b.headers == Some(CompleteHeaders(key, uploadUri))
    ensures b.contentType.None? && !Truthy(b.data)
  {
    ReqwestBody(Some(UploadUrl(id) + "/complete"), Some("post"), None,
                Some(CompleteHeaders(key, uploadUri)), Undefined)
  }

  /** `stopUpload(id)`: ask the backend to abandon the upload. */
  function StopUpload(id: string): (b: ReqwestBody)
    ensures b.url == Some(UploadUrl(id)) && b.httpMethod == Some("delete")
    ensures b.headers.None? && !Truthy(b.data)
  {
    ReqwestBody(Some(UploadUrl(id)), Some("delete"), None, None, Undefined)
  }

  /** The part calls go out as JSON `post`s whose only headers are the ones
      built here; the first commit of an upload, whose token is still `null`,
      carries no `X-Upload-Uri`. */
  lemma PartCallPayloads(id: string, key: string, uploadUri: Option<string>)
    ensures var p := MakePayload(GetCredentials(id, key));
            p.httpMethod == "post" && p.contentType == "application/json" && p.headers == Some(map[UploadKeyHeader := key])
    ensures var p := MakePayload(CompletePart(id, key, uploadUri));
            && p.httpMethod == "post" && p.contentType == "application/json"
            && p.headers.Some? && p.headers.value[UploadKeyHeader] == key
            && (UploadUriHeader in p.headers.value <==> uploadUri.Some? && uploadUri.value != "")
    ensures UploadUriHeader !in MakePayload(CompletePart(id, key, None)).headers.value
    ensures MakePayload(StopUpload(id)).httpMethod == "delete"
  {
  }
}
