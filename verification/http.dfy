/** The part of Go's `net/http` response writing the handlers rely on: the
    header map is sent with the first status line and frozen after it, the
    first `WriteHeader` wins, a body write without a status sends 200, and
    `http.Error` replies with a plain-text message. */
module Http {
  import opened Results
  import opened Records

  const StatusOK := 200
  const StatusCreated := 201
  const StatusAccepted := 202
  const StatusNoContent := 204
  const StatusTemporaryRedirect := 307
  const StatusBadRequest := 400
  const StatusUnauthorized := 401
  const StatusForbidden := 403
  const StatusConflict := 409
  const StatusGone := 410
  const StatusInternalServerError := 500

  /** `Header().Set` canonicalises its key, so "content-type" and
      "Content-Type" name the same entry; the model always uses the
      canonical spelling. */
  const ContentType := "Content-Type"
  const Location := "Location"
  const NoSniff := "X-Content-Type-Options"

  /** One entry of the `/api/user/urls` answer. */
  datatype UserLink = UserLink(shortURL: string, originalURL: string)

  /** What one `Write` puts on the wire: plain text or one JSON document
      (the JSON encoder itself is not modelled). */
  datatype Chunk =
    | Text(text: string)
    | ShortenJson(result: string)
    | BatchJson(items: seq<BatchResponseItem>)
    | LinksJson(links: seq<UserLink>)
    | StatsJson(stat: Statistic)

  /** The state of a `ResponseWriter` while a handler runs. */
  datatype Writer = Writer(header: map<string, string>, status: Option<int>, body: seq<Chunk>)

  const Fresh := Writer(map[], None, [])

  /** `w.Header().Set`: has an effect only while no status has been sent. */
  function SetHeader(w: Writer, name: string, value: string): Writer {
    if w.status.None? then w.(header := w.header[name := value]) else w
  }

  /** `w.WriteHeader`: a second call is superfluous and ignored. */
  function WriteHeader(w: Writer, code: int): Writer {
    if w.status.None? then w.(status := Some(code)) else w
  }

  /** `w.Write`: sends 200 first if no status was sent. */
  function Write(w: Writer, c: Chunk): Writer {
    var sent := WriteHeader(w, StatusOK);
    sent.(body := sent.body + [c])
  }

  /** `http.Error`: plain-text content type, no sniffing, the code, and the
      message followed by a newline. */
  function HttpError(w: Writer, msg: string, code: int): Writer {
    var w1 := SetHeader(w, ContentType, "text/plain; charset=utf-8");
    var w2 := SetHeader(w1, NoSniff, "nosniff");
    Write(WriteHeader(w2, code), Text(msg + "\n"))
  }

  /** What the client receives. */
  datatype Response = Response(status: int, header: map<string, string>, body: seq<Chunk>)

  /** The response carries header `name` with exactly `value`. */
  predicate HasHeader(r: Response, name: string, value: string) {
    name in r.header && r.header[name] == value
  }

  /** A handler that returns without writing anything answers 200. */
  function Finish(w: Writer): (r: Response)
    ensures w.status.Some? ==> r.status == w.status.value
    ensures w.status.None? ==> r.status == StatusOK
    ensures r.header == w.header && r.body == w.body
  {
    Response(w.status.GetOr(StatusOK), w.header, w.body)
  }

  /** The first status sent is the one the client sees; later header
      changes, status codes and error replies only append to the body. */
  lemma FirstStatusWins(w: Writer, code: int, name: string, value: string, msg: string, later: int)
    ensures var sent := WriteHeader(w, code);
            && sent.status == Some(w.status.GetOr(code))
            && SetHeader(sent, name, value) == sent
            && WriteHeader(sent, later) == sent
            && HttpError(sent, msg, later) == sent.(body := sent.body + [Text(msg + "\n")])
  {
  }

  /** `http.Error` on a fresh writer is a complete plain-text reply. */
  lemma ErrorReply(msg: string, code: int)
    ensures var r := Finish(HttpError(Fresh, msg, code));
            && r.status == code
            && r.header[ContentType] == "text/plain; charset=utf-8"
            && r.header[NoSniff] == "nosniff"
            && r.body == [Text(msg + "\n")]
  {
  }
}
