/** What the library hands to the Java platform and reads back from it.  The
    network exchange, URL and URI parsing, IDN host conversion, `Location`
    resolution, charsets and the decompressing streams are not part of this
    model: each is a function field of `Platform`, about which nothing is
    assumed beyond its type. */
module Platforms {
  import opened Wrappers
  import opened OrderedMaps
  import UrlEncoding

  type byte = UrlEncoding.byte

  /** A `java.nio.charset.Charset`, known by its canonical name. */
  datatype Charset = Charset(name: string)

  const Utf8: Charset := Charset("UTF-8")

  /** The stream put in front of the connection's input stream. */
  datatype Decoder = Gzip | Deflate | Identity

  /** What a configured `HttpURLConnection` sends: the request method, the
      URL it was opened on, the request properties in the order they were
      set, the connect/read timeout in milliseconds, whether the connection
      follows redirects itself, and the text written to the output stream. */
  datatype WireRequest = WireRequest(
    httpMethod: string,
    url: string,
    properties: Entries<string, string>,
    timeoutMillis: int,
    followRedirects: bool,
    body: Option<string>)

  /** What the server answered: the response code, `headerFields` (the status
      line sits under a `null` key, here `None`; each name keeps all its
      values in order) and the bytes of the input stream, still encoded as
      `Content-Encoding` says. */
  datatype Exchange = Exchange(
    status: int,
    fields: Entries<Option<string>, seq<string>>,
    body: seq<byte>)

  datatype Platform = Platform(
    /** One request/response round trip. */
    transport: WireRequest -> Exchange,
    /** `URL(text)` with its host passed through `IDN.toASCII`, written back
        as text; `None` when `URL` throws `MalformedURLException`. */
    url: string -> Option<string>,
    /** `URI(text).scheme`: `Ok(None)` for a URI without scheme. */
    uriScheme: string -> Result<Option<string>>,
    /** `URL(base).toURI().resolve(location).toASCIIString()`; `None` when
        the location is not a URI reference. */
    resolve: (string, string) -> Option<string>,
    /** `Charset.forName(name)`; `None` for an unknown or illegal name. */
    charset: string -> Option<Charset>,
    /** `bytes.toString(charset)`. */
    decode: (seq<byte>, Charset) -> string,
    /** Reading a decompressing stream over the bytes to its end. */
    inflate: (Decoder, seq<byte>) -> seq<byte>,
    /** `(seconds * 1000.0).toInt()`. */
    millis: real -> int)
}
