/** The data the storage layer and the service layer exchange: the persisted
    record, the statistic, the request/response items of the JSON API and the
    errors the backends return. */
module Records {
  import opened Results
  import HashUtil
  import opened Bytes

  /** `api.ShortenedData`, the one persisted entity. */
  datatype ShortenedData = ShortenedData(
    uuid: string,
    userID: string,
    shortURL: string,
    originalURL: string,
    isDeleted: bool)

  /** The record a shortening request stores: a fresh UUID, the caller, the
      URL and its short code, not deleted. */
  function NewRecord(md5: string -> HashUtil.Digest, uuid: string, userID: string, url: string): (d: ShortenedData)
    ensures d.shortURL == HashUtil.Encode(md5, url) && |d.shortURL| == HashUtil.CodeLength
    ensures d.originalURL == url && d.userID == userID && d.uuid == uuid && !d.isDeleted
  {
    ShortenedData(uuid, userID, HashUtil.Encode(md5, url), url, false)
  }

  /** Go's zero value `api.ShortenedData{}`. */
  const Blank := ShortenedData("", "", "", "", false)

  /** `api.Statistic`: number of stored URLs and of distinct owners. */
  datatype Statistic = Statistic(urls: int, users: int)

  /** `api.BatchShortenRequestItem` and `api.BatchShortenResponseItem`. */
  datatype BatchRequestItem = BatchRequestItem(correlationID: string, originalURL: string)
  datatype BatchResponseItem = BatchResponseItem(correlationID: string, shortURL: string)

  /** The errors the backends return. `URLExists` is `*storage.ErrURLExists`,
      the conflict signal; `Failure` is any error whose text comes from the
      operating system, the database driver or a literal in the source. */
  datatype Error =
    | KeyNotFound(key: string)
    | URLExists
    | NoBatches
    | BadLine(line: seq<byte>)
    | Failure(msg: string)

  /** The text `err.Error()` yields. A malformed log line's text comes from
      `json.Unmarshal`, which is not modelled: "invalid JSON" is a placeholder
      for that decoder's message, and the line itself is kept in the error. */
  function Message(e: Error): string {
    match e
    case KeyNotFound(key) => "key not found: " + key
    case URLExists => "URL already exists"
    case NoBatches => "no batches by provided userID"
    case BadLine(_) => "invalid JSON"
    case Failure(msg) => msg
  }

  /** What a backend's `Store` answered: the record it returned and its error. */
  datatype Stored = Stored(data: ShortenedData, err: Option<Error>)
}
