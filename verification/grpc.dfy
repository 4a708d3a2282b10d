/** The gRPC `ShortenerService`. Each RPC is a function of the incoming
    metadata, the request message and the backend state to the RPC's
    outcome and the backend's next state. */
module GrpcService {
  import opened Results
  import opened Records
  import HashUtil
  import DatabaseStorage
  import opened StorageFactory
  import Handlers
  import FileStorage
  import opened Ascii

  /** The status codes the service returns, with their gRPC numbers. */
  datatype StatusCode = InvalidArgument | DataLoss {
    function Number(): int {
      match this
      case InvalidArgument => 3
      case DataLoss => 15
    }
  }

  /** What the client of one RPC receives: the response message, a status
      built by the service, an error from the backend passed through as it
      is, or a crash of the server on a nil dereference. */
  datatype Outcome<T> = Answer(value: T) | Status(code: StatusCode, msg: string) | Raw(err: Error) | Panic

  datatype Step<S, T> = Step(outcome: Outcome<T>, state: S)

  const NoUserID := "no userID in metadata"
  const NoURL := "no url in request"
  const GetFailed := "error while get short url in storage"
  const BatchFailed := "error while get urls in storage"
  const StoreFailed := "error while post long url in storage"

  /** `pb.URLInfo`; `api.URLInfo` carries the same six fields. */
  datatype URLInfo = URLInfo(uuid: string, userID: string, correlationID: string, originalURL: string,
                             shortURL: string, isDeleted: bool)

  // ----- metadata -----

  /** Incoming metadata: lower-case keys, each with its list of values. */
  type Metadata = map<string, seq<string>>

  const HeaderUserID := "x-user-id"
  const MissingMetadata := "failed to get metadata from context"
  const NoValues := "failed to get x-user-id header from metadata: no values"

  /** `metadata.MD.Get`: the values under the lower-cased key, none if absent. */
  function MDGet(md: Metadata, name: string): seq<string> {
    if Lower(name) in md then md[Lower(name)] else []
  }

  /** The first non-empty value, or ("", false) when every value is empty. */
  function FirstNonEmpty(values: seq<string>): (r: (string, bool))
    ensures r.1 <==> exists i :: 0 <= i < |values| && values[i] != ""
    ensures !r.1 ==> r.0 == ""
    ensures r.1 ==> exists i :: 0 <= i < |values| && values[i] == r.0 && r.0 != "" &&
                                forall j :: 0 <= j < i ==> values[j] == ""
  {
    if |values| == 0 then ("", false)
    else if values[0] != "" then (values[0], true)
    else
      var rest := FirstNonEmpty(values[1..]);
      assert forall i :: 0 < i < |values| ==> values[i] == values[1..][i - 1];
      rest
  }

  /** `GetMetadataValue`. */
  function GetMetadataValue(md: Metadata, name: string): (r: (string, bool))
    ensures r.1 <==> exists i :: 0 <= i < |MDGet(md, name)| && MDGet(md, name)[i] != ""
    ensures r.1 ==> r.0 != "" && r.0 in MDGet(md, name)
    ensures !r.1 ==> r.0 == ""
  {
    var values := MDGet(md, name);
    if |values| == 0 then ("", false) else FirstNonEmpty(values)
  }

  /** `getUserIDFromMD`; `md` is None when the context carries no metadata. */
  function GetUserIDFromMD(md: Option<Metadata>): (r: Result<string, string>)
    ensures md.None? ==> r == Err(MissingMetadata)
    ensures md.Some? ==> (r.Ok? <==> GetMetadataValue(md.value, HeaderUserID).1)
    ensures r.Ok? ==> r.value != "" && r.value in MDGet(md.value, HeaderUserID)
    ensures md.Some? && r.Err? ==> r.error == NoValues
  {
    match md
    case None => Err(MissingMetadata)
    case Some(m) =>
      var (value, ok) := GetMetadataValue(m, HeaderUserID);
      if !ok then Err(NoValues) else Ok(value)
  }

  lemma HeaderIsLower()
    ensures Lower(HeaderUserID) == HeaderUserID
  {
  }

  /** The metadata of a caller that sends one user id. */
  function Caller(userID: string): Option<Metadata> {
    Some(map[HeaderUserID := [userID]])
  }

  /** A caller's non-empty user id is the one the service reads. */
  lemma CallerID(userID: string)
    requires userID != ""
    ensures GetUserIDFromMD(Caller(userID)) == Ok(userID)
  {
    HeaderIsLower();
  }

  /** A lookup ignores the case of the name asked for. */
  lemma LookupIgnoresCase(md: Metadata, name: string)
    requires Lower(name) == HeaderUserID
    ensures GetMetadataValue(md, name) == GetMetadataValue(md, HeaderUserID)
  {
    HeaderIsLower();
    assert MDGet(md, name) == MDGet(md, HeaderUserID);
  }

  /** The value found is the first non-empty one. */
  lemma {:induction false} FirstNonEmptyAt(values: seq<string>, k: nat)
    requires k < |values| && values[k] != ""
    requires forall j :: 0 <= j < k ==> values[j] == ""
    ensures FirstNonEmpty(values) == (values[k], true)
    decreases k
  {
    if k > 0 {
      assert values[0] == "";
      FirstNonEmptyAt(values[1..], k - 1);
    }
  }

  /** Empty values are skipped; the first non-empty one is the user id. */
  lemma UserIDSkipsEmptyValues(empties: nat, userID: string, more: seq<string>)
    requires userID != ""
    ensures GetUserIDFromMD(Some(map[HeaderUserID := seq(empties, _ => "") + [userID] + more])) == Ok(userID)
  {
    var values := seq(empties, _ => "") + [userID] + more;
    HeaderIsLower();
    FirstNonEmptyAt(values, empties);
  }

  // ----- conversions -----

  /** `protoURLInfoToModel`: copies every field but the UUID, which is the
      `next + i`-th freshly generated one. */
  function ProtoURLInfoToModel(urls: seq<URLInfo>, uuid: nat -> string, next: nat): (r: seq<URLInfo>)
    ensures |r| == |urls|
    ensures forall i :: 0 <= i < |urls| ==> r[i] == urls[i].(uuid := uuid(next + i))
  {
    seq(|urls|, i requires 0 <= i < |urls| => urls[i].(uuid := uuid(next + i)))
  }

  /** `modelURLInfoToProto`: a field-by-field copy. */
  function ModelURLInfoToProto(urls: seq<URLInfo>): (r: seq<URLInfo>)
    ensures |r| == |urls|
    ensures forall i :: 0 <= i < |urls| ==> r[i] == urls[i]
  {
    seq(|urls|, i requires 0 <= i < |urls| => URLInfo(urls[i].uuid, urls[i].userID, urls[i].correlationID,
                                                      urls[i].originalURL, urls[i].shortURL, urls[i].isDeleted))
  }

  /** `modelShortenedDataToProto`: the original URL also fills the
      correlation id, which a stored record does not keep. */
  function ModelShortenedDataToProto(data: seq<ShortenedData>): (r: seq<URLInfo>)
    ensures |r| == |data|
    ensures forall i :: 0 <= i < |data| ==>
              && r[i].correlationID == data[i].originalURL
              && r[i] == URLInfo(data[i].uuid, data[i].userID, data[i].originalURL, data[i].originalURL,
                                 data[i].shortURL, data[i].isDeleted)
  {
    seq(|data|, i requires 0 <= i < |data| =>
          URLInfo(data[i].uuid, data[i].userID, data[i].originalURL, data[i].originalURL, data[i].shortURL, data[i].isDeleted))
  }

  /** Converting a message to the model and back changes only the UUIDs. */
  lemma ConversionRoundTrip(urls: seq<URLInfo>, uuid: nat -> string)
    ensures var back := ModelURLInfoToProto(ProtoURLInfoToModel(urls, uuid, 0));
            |back| == |urls| && forall i :: 0 <= i < |urls| ==> back[i].(uuid := urls[i].uuid) == urls[i]
  {
  }

  // ----- the RPCs -----

  /** `BatchShortenAPI`: echoes the entities with fresh UUIDs; nothing is
      shortened or stored. */
  function BatchShortenAPI<S>(s: S, md: Option<Metadata>, entities: seq<URLInfo>, uuid: nat -> string)
    : (r: Step<S, seq<URLInfo>>)
    ensures r.state == s
    ensures r.outcome.Status? <==> GetUserIDFromMD(md).Err?
    ensures r.outcome.Status? ==> r.outcome == Status(InvalidArgument, NoUserID)
    ensures r.outcome.Answer? ==>
              |r.outcome.value| == |entities| &&
              forall i :: 0 <= i < |entities| ==> r.outcome.value[i].(uuid := entities[i].uuid) == entities[i]
  {
    var converted := ProtoURLInfoToModel(entities, uuid, 0);
    match GetUserIDFromMD(md)
    case Err(_) => Step(Status(InvalidArgument, NoUserID), s)
    case Ok(_) => Step(Answer(ModelURLInfoToProto(converted)), s)
  }

  /** The loop of `DeleteURLs`: one delete per code, in order, stopping at
      the first error. */
  function DeleteAll<S>(st: Storage<S>, s: S, userID: string, codes: seq<string>): (r: (S, Option<Error>))
    ensures |codes| == 0 ==> r == (s, None)
    ensures |codes| > 0 && st.delete(s, userID, codes[0]).1.Some? ==> r == st.delete(s, userID, codes[0])
    decreases |codes|
  {
    if |codes| == 0 then (s, None)
    else
      var (s1, err) := st.delete(s, userID, codes[0]);
      if err.Some? then (s1, err) else DeleteAll(st, s1, userID, codes[1..])
  }

  /** The delete of `codes[j]` fails on the state the deletes before it left. */
  predicate DeleteFailsAt<S>(st: Storage<S>, s: S, userID: string, codes: seq<string>, j: nat)
    requires j < |codes|
  {
    st.delete(Handlers.MarkAsDeleted(st, s, userID, codes[..j]), userID, codes[j]).1.Some?
  }

  /** The deletes before `codes[j]` seen from the state after the first one. */
  lemma PrefixShift<S>(st: Storage<S>, s: S, userID: string, codes: seq<string>, j: nat)
    requires 1 <= j <= |codes|
    ensures Handlers.MarkAsDeleted(st, s, userID, codes[..j]) ==
            Handlers.MarkAsDeleted(st, st.delete(s, userID, codes[0]).0, userID, codes[1..][..j - 1])
  {
    assert codes[..j][0] == codes[0] && codes[..j][1..] == codes[1..][..j - 1];
  }

  /** When the deletes of the first k codes succeed and the next one fails,
      the loop returns that failure, with the state it left: the earlier
      deletes stay applied and no later code is attempted. */
  lemma {:induction false} DeleteAllStopsAtFirstError<S>(st: Storage<S>, s: S, userID: string, codes: seq<string>,
                                                          k: nat)
    requires k < |codes|
    requires forall j :: 0 <= j < k ==> !DeleteFailsAt(st, s, userID, codes, j)
    requires DeleteFailsAt(st, s, userID, codes, k)
    ensures DeleteAll(st, s, userID, codes) ==
            st.delete(Handlers.MarkAsDeleted(st, s, userID, codes[..k]), userID, codes[k])
    decreases k
  {
    if k > 0 {
      var s1 := st.delete(s, userID, codes[0]).0;
      assert !DeleteFailsAt(st, s, userID, codes, 0);
      forall j | 0 <= j < k - 1 ensures !DeleteFailsAt(st, s1, userID, codes[1..], j) {
        assert !DeleteFailsAt(st, s, userID, codes, j + 1);
        PrefixShift(st, s, userID, codes, j + 1);
      }
      PrefixShift(st, s, userID, codes, k);
      DeleteAllStopsAtFirstError(st, s1, userID, codes[1..], k - 1);
    }
  }

  /** When no delete fails, the loop performs every delete in order, leaving
      the state the HTTP background deleter leaves, and reports no error. */
  lemma {:induction false} DeleteAllWithoutErrors<S>(st: Storage<S>, s: S, userID: string, codes: seq<string>)
    requires forall j :: 0 <= j < |codes| ==> !DeleteFailsAt(st, s, userID, codes, j)
    ensures DeleteAll(st, s, userID, codes) == (Handlers.MarkAsDeleted(st, s, userID, codes), None)
    decreases |codes|
  {
    if |codes| > 0 {
      var s1 := st.delete(s, userID, codes[0]).0;
      assert !DeleteFailsAt(st, s, userID, codes, 0);
      forall j | 0 <= j < |codes| - 1 ensures !DeleteFailsAt(st, s1, userID, codes[1..], j) {
        assert !DeleteFailsAt(st, s, userID, codes, j + 1);
        PrefixShift(st, s, userID, codes, j + 1);
      }
      DeleteAllWithoutErrors(st, s1, userID, codes[1..]);
    }
  }

  /** `DeleteURLs`: unlike the HTTP handler, runs the deletes before
      answering and returns the first backend error as it is. */
  function DeleteURLs<S>(st: Storage<S>, s: S, md: Option<Metadata>, codes: seq<string>): (r: Step<S, ()>)
    ensures GetUserIDFromMD(md).Err? ==> r == Step(Status(InvalidArgument, NoUserID), s)
    ensures GetUserIDFromMD(md).Ok? ==>
              var (s1, err) := DeleteAll(st, s, GetUserIDFromMD(md).value, codes);
              r.state == s1 && (r.outcome == Answer(()) <==> err.None?) && (err.Some? ==> r.outcome == Raw(err.value))
  {
    match GetUserIDFromMD(md)
    case Err(_) => Step(Status(InvalidArgument, NoUserID), s)
    case Ok(userID) =>
      var (s1, err) := DeleteAll(st, s, userID, codes);
      if err.Some? then Step(Raw(err.value), s1) else Step(Answer(()), s1)
  }

  /** `FindByShortLink`: the original URL, whether or not it was deleted. */
  function FindByShortLink<S>(st: Storage<S>, s: S, url: string): (r: Step<S, string>)
    ensures r.state == s
    ensures url == "" ==> r.outcome == Status(InvalidArgument, NoURL)
    ensures url != "" && st.get(s, url).Err? ==> r.outcome == Status(DataLoss, GetFailed)
    ensures r.outcome.Answer? <==> url != "" && st.get(s, url).Ok?
    ensures r.outcome.Answer? ==> r.outcome.value == st.get(s, url).value.originalURL
  {
    if url == "" then Step(Status(InvalidArgument, NoURL), s)
    else
      match st.get(s, url)
      case Err(_) => Step(Status(DataLoss, GetFailed), s)
      case Ok(res) => Step(Answer(res.originalURL), s)
  }

  /** `FindUserURLS`: the user's records, the original URL doubling as
      correlation id. */
  function FindUserURLS<S>(st: Storage<S>, s: S, md: Option<Metadata>): (r: Step<S, seq<URLInfo>>)
    ensures r.state == s
    ensures GetUserIDFromMD(md).Err? ==> r.outcome == Status(InvalidArgument, NoUserID)
    ensures GetUserIDFromMD(md).Ok? && st.batch(s, GetUserIDFromMD(md).value).Err? ==>
              r.outcome == Status(DataLoss, BatchFailed)
    ensures r.outcome.Answer? <==> GetUserIDFromMD(md).Ok? && st.batch(s, GetUserIDFromMD(md).value).Ok?
    ensures r.outcome.Answer? ==> r.outcome.value == ModelShortenedDataToProto(st.batch(s, GetUserIDFromMD(md).value).value)
  {
    match GetUserIDFromMD(md)
    case Err(_) => Step(Status(InvalidArgument, NoUserID), s)
    case Ok(userID) =>
      match st.batch(s, userID)
      case Err(_) => Step(Status(DataLoss, BatchFailed), s)
      case Ok(results) => Step(Answer(ModelShortenedDataToProto(results)), s)
  }

  /** Go's `int32(x)` on an `int`: two's-complement truncation to 32 bits. */
  function Int32(x: int): (r: int)
    ensures -0x8000_0000 <= r < 0x8000_0000
    ensures (r - x) % 0x1_0000_0000 == 0
    ensures -0x8000_0000 <= x < 0x8000_0000 ==> r == x
  {
    (x + 0x8000_0000) % 0x1_0000_0000 - 0x8000_0000
  }

  /** A count past the 32-bit range is reported negative. */
  lemma Int32Wraps()
    ensures Int32(0x8000_0000) == -0x8000_0000
    ensures Int32(0x1_0000_0000 + 5) == 5
  {
  }

  /** `GetStats` as written: a nil statistic is dereferenced. */
  function GetStatsAsWritten<S>(st: Storage<S>, s: S): (r: Step<S, (int, int)>)
    ensures r.state == s
    ensures r.outcome.Panic? <==> st.statistic(s).None?
    ensures r.outcome.Answer? ==>
              r.outcome.value == (Int32(st.statistic(s).value.urls), Int32(st.statistic(s).value.users))
  {
    match st.statistic(s)
    case None => Step(Panic, s)
    case Some(stat) => Step(Answer((Int32(stat.urls), Int32(stat.users))), s)
  }

  const StatsFailed := "error while get statistic in storage"

  /** `GetStats` with the missing nil check: an unavailable statistic is a
      status like every other storage failure of the service. */
  function GetStats<S>(st: Storage<S>, s: S): (r: Step<S, (int, int)>)
    ensures r.state == s && !r.outcome.Panic?
    ensures r.outcome.Answer? <==> st.statistic(s).Some?
    ensures r.outcome.Answer? ==> r.outcome == GetStatsAsWritten(st, s).outcome
    ensures !r.outcome.Answer? ==> r.outcome == Status(DataLoss, StatsFailed)
  {
    match st.statistic(s)
    case None => Step(Status(DataLoss, StatsFailed), s)
    case Some(stat) => Step(Answer((Int32(stat.urls), Int32(stat.users))), s)
  }

  /** The file backend has no statistic, so the written RPC crashes the
      server on it. */
  lemma GetStatsPanicsOnFileBackend(c: FileStorage.Codec, st: FileState)
    ensures GetStatsAsWritten(FileBackend(c), st).outcome == Panic
    ensures GetStats(FileBackend(c), st).outcome == Status(DataLoss, StatsFailed)
  {
  }

  /** `Ping`: an empty answer, or the backend's error as it is. */
  function Ping<S>(st: Storage<S>, s: S): (r: Step<S, ()>)
    ensures r.state == s
    ensures r.outcome == Answer(()) <==> st.ping(s).None?
    ensures st.ping(s).Some? ==> r.outcome == Raw(st.ping(s).value)
  {
    match st.ping(s)
    case None => Step(Answer(()), s)
    case Some(e) => Step(Raw(e), s)
  }

  /** The storing tail shared by `ShortenAPI` and `Shorten`: every backend
      error, the conflict signal included, becomes a data-loss status; on
      success the answer is the short code of the record `Store` returned. */
  function StoreAndAnswer<S>(st: Storage<S>, s: S, data: ShortenedData): (r: Step<S, string>)
    ensures r.state == st.store(s, data).0
    ensures st.store(s, data).1.err.Some? <==> r.outcome == Status(DataLoss, StoreFailed)
    ensures st.store(s, data).1.err.None? ==> r.outcome == Answer(st.store(s, data).1.data.shortURL)
  {
    var (s1, stored) := st.store(s, data);
    if stored.err.Some? then Step(Status(DataLoss, StoreFailed), s1)
    else Step(Answer(stored.data.shortURL), s1)
  }

  /** `ShortenAPI`: any URL, the empty one included, is shortened. */
  function ShortenAPI<S>(md5: string -> HashUtil.Digest, st: Storage<S>, s: S, md: Option<Metadata>, url: string,
                         uuid: string): (r: Step<S, string>)
    ensures GetUserIDFromMD(md).Err? ==> r == Step(Status(InvalidArgument, NoUserID), s)
    ensures GetUserIDFromMD(md).Ok? ==> r == StoreAndAnswer(st, s, NewRecord(md5, uuid, GetUserIDFromMD(md).value, url))
  {
    match GetUserIDFromMD(md)
    case Err(_) => Step(Status(InvalidArgument, NoUserID), s)
    case Ok(userID) => StoreAndAnswer(st, s, NewRecord(md5, uuid, userID, url))
  }

  /** `Shorten`: the user id is checked before the URL. */
  function Shorten<S>(md5: string -> HashUtil.Digest, st: Storage<S>, s: S, md: Option<Metadata>, url: string,
                      uuid: string): (r: Step<S, string>)
    ensures GetUserIDFromMD(md).Err? ==> r == Step(Status(InvalidArgument, NoUserID), s)
    ensures GetUserIDFromMD(md).Ok? && url == "" ==> r == Step(Status(InvalidArgument, NoURL), s)
    ensures GetUserIDFromMD(md).Ok? && url != "" ==>
              r == StoreAndAnswer(st, s, NewRecord(md5, uuid, GetUserIDFromMD(md).value, url))
  {
    match GetUserIDFromMD(md)
    case Err(_) => Step(Status(InvalidArgument, NoUserID), s)
    case Ok(userID) =>
      if url == "" then Step(Status(InvalidArgument, NoURL), s)
      else StoreAndAnswer(st, s, NewRecord(md5, uuid, userID, url))
  }

  // ----- over the database backend -----

  /** A new URL is stored and its short code returned. */
  lemma ShortenOnDatabase(md5: string -> HashUtil.Digest, t: DatabaseStorage.Table, userID: string, url: string,
                          uuid: string)
    requires userID != "" && url != ""
    requires forall k :: 0 <= k < |t| ==> t[k].originalURL != url && t[k].shortURL != HashUtil.Encode(md5, url)
    ensures var r := Shorten(md5, Db, t, Caller(userID), url, uuid);
            && r.outcome == Answer(HashUtil.Encode(md5, url))
            && r.state == t + [NewRecord(md5, uuid, userID, url)]
  {
    CallerID(userID);
  }

  /** A URL that is already stored is a data-loss failure over gRPC, where
      the HTTP API answers 409 with the existing link. */
  lemma ShortenAPIConflictOnDatabase(md5: string -> HashUtil.Digest, t: DatabaseStorage.Table, userID: string,
                                     url: string, uuid: string, row: nat)
    requires userID != "" && row < |t| && t[row].originalURL == url
    ensures ShortenAPI(md5, Db, t, Caller(userID), url, uuid) == Step(Status(DataLoss, StoreFailed), t)
  {
    CallerID(userID);
    assert DatabaseStorage.Store(t, NewRecord(md5, uuid, userID, url), None).err == Some(URLExists);
  }

  /** A soft-deleted link still resolves over gRPC, where the HTTP API
      answers 410. */
  lemma DeletedLinkStillResolves(t: DatabaseStorage.Table, row: nat)
    requires DatabaseStorage.Valid(t) && row < |t| && t[row].shortURL != ""
    ensures var t' := DatabaseStorage.DeleteByUserIDAndShort(t, t[row].userID, t[row].shortURL, None).0;
            FindByShortLink(Db, t', t[row].shortURL).outcome == Answer(t[row].originalURL)
  {
    DatabaseStorage.GetAfterOwnerDelete(t, row, t[row].shortURL);
  }

  /** With a healthy database every delete succeeds, so the RPC performs the
      whole list, as the HTTP handler's background deleter does. */
  lemma {:induction false} DeleteAllOnDatabase(t: DatabaseStorage.Table, userID: string, codes: seq<string>)
    ensures DeleteAll(Db, t, userID, codes) == (DatabaseStorage.ApplyDeletes(t, userID, codes), None)
    decreases |codes|
  {
    if |codes| > 0 {
      DeleteAllOnDatabase(DatabaseStorage.DeleteByUserIDAndShort(t, userID, codes[0], None).0, userID, codes[1..]);
    }
  }

  // ----- over the file backend -----

  /** The file backend's `Store` returns an empty record, so both shortening
      RPCs answer with an empty short code, though the URL is stored. */
  lemma ShortenOnFileBackend(md5: string -> HashUtil.Digest, c: FileStorage.Codec, st: FileState, userID: string,
                             url: string, uuid: string)
    requires userID != "" && !st.disk.Denied?
    ensures var d := NewRecord(md5, uuid, userID, url);
            var r := ShortenAPI(md5, FileBackend(c), st, Caller(userID), url, uuid);
            && r.outcome == Answer("")
            && r.state.fs.mem.data[d.shortURL] == d
    ensures url != "" ==> Shorten(md5, FileBackend(c), st, Caller(userID), url, uuid).outcome == Answer("")
  {
    CallerID(userID);
  }
}
