/** The HTTP handlers of the shortener. Each handler is a function from the
    request facts the Go code reads (method, body, headers, the outcome of
    the authentication helper) and the state of the storage backend to the
    response the client receives and the backend's next state. */
module Handlers {
  import opened Results
  import opened Records
  import opened Http
  import HashUtil
  import DatabaseStorage
  import opened StorageFactory
  import opened Ascii

  /** The handler's settings; `md5` stands for the digest `hashutil.Encode` uses. */
  datatype Handler = Handler(baseURL: string, md5: string -> HashUtil.Digest)

  /** What `auth.GetUserToken` returns: a user id and an error. */
  datatype Token = Token(userID: string, err: Option<Error>)

  /** A request body: reading it failed, decoding it failed, or its decoded value. */
  datatype Body<T> = ReadFailed(msg: string) | Malformed(msg: string) | Decoded(value: T)

  /** Work a handler leaves to a background goroutine. */
  datatype Deferred = Idle | MarkDeleted(userID: string, codes: seq<string>)

  datatype Reply<S> = Reply(response: Response, state: S, deferred: Deferred)

  /** The short code of a URL. */
  function Code(h: Handler, url: string): string {
    HashUtil.Encode(h.md5, url)
  }

  /** The public link of a short code. */
  function Link(h: Handler, code: string): string {
    h.baseURL + "/" + code
  }

  /** `strings.Contains`. */
  predicate Contains(s: string, part: string)
    decreases |s|
  {
    part <= s || (|s| > 0 && Contains(s[1..], part))
  }

  /** `part` occurs in `s` starting at position `i`. */
  predicate OccursAt(s: string, part: string, i: int) {
    0 <= i <= |s| - |part| && s[i..i + |part|] == part
  }

  /** An occurrence past the first position is an occurrence in the rest. */
  lemma OccursInRest(s: string, part: string, i: int)
    requires 0 < i && OccursAt(s, part, i)
    ensures OccursAt(s[1..], part, i - 1)
  {
    var here, there := s[i..i + |part|], s[1..][i - 1..i - 1 + |part|];
    assert |here| == |there|;
    forall k | 0 <= k < |here|
      ensures here[k] == there[k]
    {
    }
    assert there == part;
  }

  /** Whatever `Contains` finds occurs at some position. */
  lemma {:induction false} ContainsOccurs(s: string, part: string)
    requires Contains(s, part)
    ensures exists i :: OccursAt(s, part, i)
    decreases |s|
  {
    if part <= s {
      assert OccursAt(s, part, 0);
    } else {
      ContainsOccurs(s[1..], part);
      var i :| OccursAt(s[1..], part, i);
      assert s[i + 1..i + 1 + |part|] == s[1..][i..i + |part|];
      assert OccursAt(s, part, i + 1);
    }
  }

  /** An occurrence at any position is found by `Contains`. */
  lemma {:induction false} OccursContains(s: string, part: string, i: int)
    requires OccursAt(s, part, i)
    ensures Contains(s, part)
    decreases i
  {
    if i == 0 {
      assert s[..|part|] == part;
    } else {
      OccursInRest(s, part, i);
      OccursContains(s[1..], part, i - 1);
    }
  }

  /** `Contains` finds `part` exactly when it occurs at some position of `s`. */
  lemma ContainsIsSubstring(s: string, part: string)
    ensures Contains(s, part) <==> exists i :: OccursAt(s, part, i)
  {
    if Contains(s, part) {
      ContainsOccurs(s, part);
    }
    if exists i :: OccursAt(s, part, i) {
      var i :| OccursAt(s, part, i);
      OccursContains(s, part, i);
    }
  }

  /** A string never contains a longer one. */
  lemma {:induction false} ContainsNotLonger(s: string, part: string)
    requires |part| > |s|
    ensures !Contains(s, part)
    decreases |s|
  {
    if |s| > 0 {
      ContainsNotLonger(s[1..], part);
    }
  }

  // ----- POST / -----

  /** `Shorten`: the body is the URL in plain text. */
  function Shorten<S>(h: Handler, st: Storage<S>, s: S, verb: string, body: Option<string>, token: Token, uuid: string)
    : (r: Reply<S>)
    ensures r.deferred == Idle
    ensures r.response.status in {StatusBadRequest, StatusCreated, StatusConflict}
    ensures r.response.status == StatusBadRequest <==>
              verb != "POST" || body.None? || body.value == "" || token.err.Some?
    ensures r.response.status == StatusBadRequest ==> r.state == s
    ensures r.response.status == StatusBadRequest && token.err.None? ==>
              HasHeader(r.response, ContentType, "text/plain; charset=utf-8")
    ensures r.response.status != StatusBadRequest ==>
              var step := st.store(s, NewRecord(h.md5, uuid, token.userID, body.value));
              && r.state == step.0
              && HasHeader(r.response, ContentType, "text/plain")
              && (r.response.status == StatusConflict <==> step.1.err == Some(URLExists))
              && r.response.body == [Text(Link(h, if step.1.err == Some(URLExists) then step.1.data.shortURL
                                                  else Code(h, body.value)))]
  {
    if verb != "POST" then Reply(Finish(HttpError(Fresh, "Not supported", StatusBadRequest)), s, Idle)
    else if body.None? then Reply(Finish(HttpError(Fresh, "Reading requestBody failed", StatusBadRequest)), s, Idle)
    else if body.value == "" then Reply(Finish(HttpError(Fresh, "Empty request body", StatusBadRequest)), s, Idle)
    else
      var encoded := Code(h, body.value);
      if token.err.Some? then Reply(Finish(WriteHeader(Fresh, StatusBadRequest)), s, Idle)
      else
        var step := st.store(s, NewRecord(h.md5, uuid, token.userID, body.value));
        var w := SetHeader(Fresh, ContentType, "text/plain");
        if step.1.err == Some(URLExists) then
          Reply(Finish(Write(WriteHeader(w, StatusConflict), Text(Link(h, step.1.data.shortURL)))), step.0, Idle)
        else
          Reply(Finish(Write(WriteHeader(w, StatusCreated), Text(Link(h, encoded)))), step.0, Idle)
  }

  // ----- GET /{id} -----

  /** `FindByShortLink`: a redirect to the original URL, 410 for a deleted
      link, 400 for an unknown one. */
  function FindByShortLink<S>(st: Storage<S>, s: S, verb: string, id: string): (r: Reply<S>)
    ensures r.state == s && r.deferred == Idle
    ensures r.response.status in {StatusBadRequest, StatusGone, StatusTemporaryRedirect}
    ensures r.response.status == StatusTemporaryRedirect <==>
              verb == "GET" && st.get(s, id).Ok? && !st.get(s, id).value.isDeleted
    ensures r.response.status == StatusGone <==>
              verb == "GET" && st.get(s, id).Ok? && st.get(s, id).value.isDeleted
    ensures r.response.status == StatusTemporaryRedirect ==>
              HasHeader(r.response, Location, st.get(s, id).value.originalURL) && r.response.body == []
  {
    if verb != "GET" then Reply(Finish(HttpError(Fresh, "Not supported", StatusBadRequest)), s, Idle)
    else
      match st.get(s, id)
      case Err(_) => Reply(Finish(HttpError(Fresh, "Bad request", StatusBadRequest)), s, Idle)
      case Ok(data) =>
        if data.isDeleted then Reply(Finish(WriteHeader(Fresh, StatusGone)), s, Idle)
        else
          var w := SetHeader(SetHeader(Fresh, ContentType, "text/plain"), Location, data.originalURL);
          Reply(Finish(WriteHeader(w, StatusTemporaryRedirect)), s, Idle)
  }

  // ----- POST /api/shorten -----

  /** `ShortenAPI` as written: the content-type check and the authentication
      check write 400 but do not return, so the request is still stored and
      the JSON answer is appended to the error reply. */
  function ShortenAPIAsWritten<S>(h: Handler, st: Storage<S>, s: S, contentType: string, body: Body<string>,
                                  token: Token, uuid: string): (r: Reply<S>)
    ensures r.deferred == Idle
    ensures !body.Decoded? ==> r.state == s && r.response.status == StatusBadRequest
    ensures body.Decoded? ==>
              && r.state == st.store(s, NewRecord(h.md5, uuid, token.userID, body.value)).0
              && |r.response.body| > 0
              && r.response.body[|r.response.body| - 1] == ShortenJson(Link(h, Code(h, body.value)))
              && (r.response.status == StatusBadRequest <==>
                    !Contains(contentType, "application/json") || token.err.Some?)
  {
    var w0 := if Contains(contentType, "application/json") then Fresh
              else HttpError(Fresh, "Not valid content type", StatusBadRequest);
    match body
    case ReadFailed(_) => Reply(Finish(HttpError(w0, "Reading requestBody failed", StatusBadRequest)), s, Idle)
    case Malformed(_) => Reply(Finish(HttpError(w0, "Unmarshalling request failed", StatusBadRequest)), s, Idle)
    case Decoded(url) =>
      var result := ShortenJson(Link(h, Code(h, url)));
      var w1 := if token.err.Some? then WriteHeader(w0, StatusBadRequest) else w0;
      var step := st.store(s, NewRecord(h.md5, uuid, token.userID, url));
      var w2 := WriteHeader(SetHeader(w1, ContentType, "application/json"),
                            if step.1.err == Some(URLExists) then StatusConflict else StatusCreated);
      Reply(Finish(Write(w2, result)), step.0, Idle)
  }

  /** A request with a non-JSON content type is answered 400 with the error
      text followed by the JSON result, and the URL is stored anyway. */
  lemma ShortenAPIStoresDespiteContentType<S>(h: Handler, st: Storage<S>, s: S, contentType: string,
                                              url: string, userID: string, uuid: string)
    requires !Contains(contentType, "application/json")
    ensures var r := ShortenAPIAsWritten(h, st, s, contentType, Decoded(url), Token(userID, None), uuid);
            && r.response.status == StatusBadRequest
            && HasHeader(r.response, ContentType, "text/plain; charset=utf-8")
            && r.response.body == [Text("Not valid content type\n"), ShortenJson(Link(h, Code(h, url)))]
            && r.state == st.store(s, NewRecord(h.md5, uuid, userID, url)).0
  {
    assert "Not valid content type" + "\n" == "Not valid content type\n";
  }

  /** "Application/JSON" is the JSON media type in other letters: the
      content-type middleware in front of the handler compares media types
      in lower case and lets it through, but the handler's own
      case-sensitive test rejects it. */
  lemma MixedCaseJsonFailsTest()
    ensures Lower("Application/JSON") == "application/json"
    ensures !Contains("Application/JSON", "application/json")
  {
    var s, part := "Application/JSON", "application/json";
    assert s[0] != part[0];
    ContainsNotLonger(s[1..], part);
  }

  /** A request whose authentication fails is answered 400, yet it is stored
      under whatever user id the helper returned with its error. */
  lemma ShortenAPIStoresDespiteAuthFailure<S>(h: Handler, st: Storage<S>, s: S, contentType: string,
                                              url: string, token: Token, uuid: string)
    requires Contains(contentType, "application/json")
    requires token.err.Some?
    ensures var r := ShortenAPIAsWritten(h, st, s, contentType, Decoded(url), token, uuid);
            && r.response.status == StatusBadRequest
            && r.response.body == [ShortenJson(Link(h, Code(h, url)))]
            && r.state == st.store(s, NewRecord(h.md5, uuid, token.userID, url)).0
  {
  }

  /** `ShortenAPI` with the two missing `return`s restored: a rejected
      request reaches no backend and gets a single error reply. */
  function ShortenAPI<S>(h: Handler, st: Storage<S>, s: S, contentType: string, body: Body<string>,
                         token: Token, uuid: string): (r: Reply<S>)
    ensures r.deferred == Idle
    ensures r.response.status in {StatusBadRequest, StatusCreated, StatusConflict}
    ensures r.response.status == StatusBadRequest <==>
              !Contains(contentType, "application/json") || !body.Decoded? || token.err.Some?
    ensures r.response.status == StatusBadRequest ==> r.state == s && |r.response.body| <= 1
    ensures r.response.status != StatusBadRequest ==>
              var step := st.store(s, NewRecord(h.md5, uuid, token.userID, body.value));
              && r.state == step.0
              && HasHeader(r.response, ContentType, "application/json")
              && (r.response.status == StatusConflict <==> step.1.err == Some(URLExists))
              && r.response.body == [ShortenJson(Link(h, Code(h, body.value)))]
  {
    if !Contains(contentType, "application/json") then
      Reply(Finish(HttpError(Fresh, "Not valid content type", StatusBadRequest)), s, Idle)
    else
      match body
      case ReadFailed(_) => Reply(Finish(HttpError(Fresh, "Reading requestBody failed", StatusBadRequest)), s, Idle)
      case Malformed(_) => Reply(Finish(HttpError(Fresh, "Unmarshalling request failed", StatusBadRequest)), s, Idle)
      case Decoded(url) =>
        var result := ShortenJson(Link(h, Code(h, url)));
        if token.err.Some? then Reply(Finish(WriteHeader(Fresh, StatusBadRequest)), s, Idle)
        else
          var step := st.store(s, NewRecord(h.md5, uuid, token.userID, url));
          var w := WriteHeader(SetHeader(Fresh, ContentType, "application/json"),
                               if step.1.err == Some(URLExists) then StatusConflict else StatusCreated);
          Reply(Finish(Write(w, result)), step.0, Idle)
  }

  /** On every request the corrected handler accepts, it behaves exactly as
      the written one. */
  lemma ShortenAPIAgreesWhenAccepted<S>(h: Handler, st: Storage<S>, s: S, contentType: string, body: Body<string>,
                                        token: Token, uuid: string)
    requires Contains(contentType, "application/json") && body.Decoded? && token.err.None?
    ensures ShortenAPI(h, st, s, contentType, body, token, uuid) == ShortenAPIAsWritten(h, st, s, contentType, body, token, uuid)
  {
  }

  // ----- GET /ping -----

  /** `Ping`: 500 when the backend reports an error, 200 otherwise. */
  function Ping<S>(st: Storage<S>, s: S): (r: Reply<S>)
    ensures r.state == s && r.deferred == Idle && r.response.body == []
    ensures r.response.status == StatusOK <==> st.ping(s).None?
    ensures r.response.status != StatusOK ==> r.response.status == StatusInternalServerError
  {
    if st.ping(s).Some? then Reply(Finish(WriteHeader(Fresh, StatusInternalServerError)), s, Idle)
    else Reply(Finish(WriteHeader(Fresh, StatusOK)), s, Idle)
  }

  // ----- POST /api/shorten/batch -----

  /** The answer item for one batch entry. */
  function Answer(h: Handler, item: BatchRequestItem): BatchResponseItem {
    BatchResponseItem(item.correlationID, Link(h, Code(h, item.originalURL)))
  }

  datatype BatchRun<S> = Completed(state: S, items: seq<BatchResponseItem>) | Aborted(state: S, error: Error)

  /** The loop of `BatchShortenAPI`: one `Store` per entry in order, the
      `next`-th generated UUID for the first; the first error ends the loop
      with the entries before it already stored. */
  function RunBatch<S>(h: Handler, st: Storage<S>, s: S, items: seq<BatchRequestItem>, userID: string,
                       uuid: nat -> string, next: nat): (r: BatchRun<S>)
    ensures r.Completed? ==> |r.items| == |items| && forall i :: 0 <= i < |items| ==> r.items[i] == Answer(h, items[i])
    ensures r.Aborted? ==> |items| > 0
    ensures |items| > 0 && st.store(s, NewRecord(h.md5, uuid(next), userID, items[0].originalURL)).1.err.Some? ==>
              r == Aborted(st.store(s, NewRecord(h.md5, uuid(next), userID, items[0].originalURL)).0,
                           st.store(s, NewRecord(h.md5, uuid(next), userID, items[0].originalURL)).1.err.value)
    decreases |items|
  {
    if |items| == 0 then Completed(s, [])
    else
      var step := st.store(s, NewRecord(h.md5, uuid(next), userID, items[0].originalURL));
      if step.1.err.Some? then Aborted(step.0, step.1.err.value)
      else
        match RunBatch(h, st, step.0, items[1..], userID, uuid, next + 1)
        case Completed(s2, rest) => Completed(s2, [Answer(h, items[0])] + rest)
        case Aborted(s2, e) => Aborted(s2, e)
  }

  /** The record the batch stores for entry `i` of `items`. */
  function EntryRecord(h: Handler, items: seq<BatchRequestItem>, userID: string, uuid: nat -> string, next: nat,
                       i: nat): ShortenedData
    requires i < |items|
  {
    NewRecord(h.md5, uuid(next + i), userID, items[i].originalURL)
  }

  /** The state after one `Store` per entry, in order, whatever the stores answer. */
  function StoreEntries<S>(h: Handler, st: Storage<S>, s: S, items: seq<BatchRequestItem>, userID: string,
                           uuid: nat -> string, next: nat): (r: S)
    ensures |items| == 0 ==> r == s
    ensures |items| == 1 ==> r == st.store(s, EntryRecord(h, items, userID, uuid, next, 0)).0
    decreases |items|
  {
    if |items| == 0 then s
    else StoreEntries(h, st, st.store(s, EntryRecord(h, items, userID, uuid, next, 0)).0, items[1..], userID, uuid,
                      next + 1)
  }

  /** The store of entry j fails on the state the entries before it left. */
  predicate StoreFailsAt<S>(h: Handler, st: Storage<S>, s: S, items: seq<BatchRequestItem>, userID: string,
                            uuid: nat -> string, next: nat, j: nat)
    requires j < |items|
  {
    AfterEntry(h, st, s, items, userID, uuid, next, j).1.err.Some?
  }

  /** The entries before `items[j]` seen from the state after the first one. */
  lemma EntriesShift<S>(h: Handler, st: Storage<S>, s: S, items: seq<BatchRequestItem>, userID: string,
                        uuid: nat -> string, next: nat, j: nat)
    requires 1 <= j <= |items|
    ensures StoreEntries(h, st, s, items[..j], userID, uuid, next) ==
            StoreEntries(h, st, st.store(s, EntryRecord(h, items, userID, uuid, next, 0)).0, items[1..][..j - 1],
                         userID, uuid, next + 1)
  {
    assert items[..j][0] == items[0] && items[..j][1..] == items[1..][..j - 1];
  }

  /** Entry j + 1 of `items` is entry j of its tail, one UUID further on. */
  lemma EntryRecordShift(h: Handler, items: seq<BatchRequestItem>, userID: string, uuid: nat -> string, next: nat,
                         j: nat)
    requires j + 1 < |items|
    ensures EntryRecord(h, items[1..], userID, uuid, next + 1, j) == EntryRecord(h, items, userID, uuid, next, j + 1)
  {
    assert items[1..][j] == items[j + 1];
  }

  /** Whether entry j + 1 fails is whether entry j of the tail fails on the
      state the first entry left. */
  lemma FailsAtShift<S>(h: Handler, st: Storage<S>, s: S, items: seq<BatchRequestItem>, userID: string,
                        uuid: nat -> string, next: nat, j: nat)
    requires j + 1 < |items|
    ensures StoreFailsAt(h, st, st.store(s, EntryRecord(h, items, userID, uuid, next, 0)).0, items[1..], userID, uuid,
                         next + 1, j)
            == StoreFailsAt(h, st, s, items, userID, uuid, next, j + 1)
  {
    AfterEntryShift(h, st, s, items, userID, uuid, next, j);
  }

  /** Entries that do not fail keep not failing, seen from the tail. */
  lemma NoFailuresShift<S>(h: Handler, st: Storage<S>, s: S, items: seq<BatchRequestItem>, userID: string,
                           uuid: nat -> string, next: nat, m: nat, s1: S, n1: nat)
    requires m < |items|
    requires s1 == st.store(s, EntryRecord(h, items, userID, uuid, next, 0)).0 && n1 == next + 1
    requires forall j :: 0 <= j <= m ==> !StoreFailsAt(h, st, s, items, userID, uuid, next, j)
    ensures forall j :: 0 <= j < m ==> !StoreFailsAt(h, st, s1, items[1..], userID, uuid, n1, j)
  {
    forall j | 0 <= j < m ensures !StoreFailsAt(h, st, s1, items[1..], userID, uuid, n1, j) {
      assert !StoreFailsAt(h, st, s, items, userID, uuid, next, j + 1);
      FailsAtShift(h, st, s, items, userID, uuid, next, j);
    }
  }

  /** Once the first entry is stored, the batch ends as the rest of it does. */
  lemma RunBatchTail<S>(h: Handler, st: Storage<S>, s: S, items: seq<BatchRequestItem>, userID: string,
                        uuid: nat -> string, next: nat)
    requires |items| > 0
    requires st.store(s, EntryRecord(h, items, userID, uuid, next, 0)).1.err.None?
    ensures var rest := RunBatch(h, st, st.store(s, EntryRecord(h, items, userID, uuid, next, 0)).0, items[1..],
                                 userID, uuid, next + 1);
            var r := RunBatch(h, st, s, items, userID, uuid, next);
            && (rest.Aborted? ==> r == rest)
            && (rest.Completed? ==> r.Completed? && r.state == rest.state)
  {
  }

  /** What the store of entry k does on the state the entries before it left. */
  function AfterEntry<S>(h: Handler, st: Storage<S>, s: S, items: seq<BatchRequestItem>, userID: string,
                         uuid: nat -> string, next: nat, k: nat): (S, Stored)
    requires k < |items|
  {
    st.store(StoreEntries(h, st, s, items[..k], userID, uuid, next), EntryRecord(h, items, userID, uuid, next, k))
  }

  /** Entry k + 1 seen from the tail, once the first entry is stored. */
  lemma AfterEntryShift<S>(h: Handler, st: Storage<S>, s: S, items: seq<BatchRequestItem>, userID: string,
                           uuid: nat -> string, next: nat, k: nat)
    requires k + 1 < |items|
    ensures AfterEntry(h, st, st.store(s, EntryRecord(h, items, userID, uuid, next, 0)).0, items[1..], userID, uuid,
                       next + 1, k)
            == AfterEntry(h, st, s, items, userID, uuid, next, k + 1)
  {
    EntriesShift(h, st, s, items, userID, uuid, next, k + 1);
    EntryRecordShift(h, items, userID, uuid, next, k);
  }

  /** When the stores of the first k entries succeed and the next one fails,
      the batch aborts with that store's error and the state it left: the
      earlier entries stay stored and no later entry is attempted. */
  lemma {:induction false} RunBatchStopsAtFirstError<S>(h: Handler, st: Storage<S>, s: S,
                                                        items: seq<BatchRequestItem>, userID: string,
                                                        uuid: nat -> string, next: nat, k: nat)
    requires k < |items|
    requires forall j :: 0 <= j < k ==> !StoreFailsAt(h, st, s, items, userID, uuid, next, j)
    requires StoreFailsAt(h, st, s, items, userID, uuid, next, k)
    ensures AfterEntry(h, st, s, items, userID, uuid, next, k).1.err.Some?
    ensures RunBatch(h, st, s, items, userID, uuid, next) ==
            Aborted(AfterEntry(h, st, s, items, userID, uuid, next, k).0,
                    AfterEntry(h, st, s, items, userID, uuid, next, k).1.err.value)
    decreases k
  {
    if k == 0 {
      RunBatchFailsFirst(h, st, s, items, userID, uuid, next);
    } else {
      var s1 := st.store(s, EntryRecord(h, items, userID, uuid, next, 0)).0;
      var n1 := next + 1;
      FirstErrorShift(h, st, s, items, userID, uuid, next, k, s1, n1);
      RunBatchStopsAtFirstError(h, st, s1, items[1..], userID, uuid, n1, k - 1);
      RunBatchAbortsLater(h, st, s, items, userID, uuid, next, k);
    }
  }

  /** A first failure at entry k > 0 is a first failure of the tail at entry
      k - 1, seen from the state the first entry left. */
  lemma FirstErrorShift<S>(h: Handler, st: Storage<S>, s: S, items: seq<BatchRequestItem>, userID: string,
                           uuid: nat -> string, next: nat, k: nat, s1: S, n1: nat)
    requires 0 < k < |items|
    requires s1 == st.store(s, EntryRecord(h, items, userID, uuid, next, 0)).0 && n1 == next + 1
    requires forall j :: 0 <= j < k ==> !StoreFailsAt(h, st, s, items, userID, uuid, next, j)
    requires StoreFailsAt(h, st, s, items, userID, uuid, next, k)
    ensures !StoreFailsAt(h, st, s, items, userID, uuid, next, 0)
    ensures forall j :: 0 <= j < k - 1 ==> !StoreFailsAt(h, st, s1, items[1..], userID, uuid, n1, j)
    ensures StoreFailsAt(h, st, s1, items[1..], userID, uuid, n1, k - 1)
  {
    NoFailuresShift(h, st, s, items, userID, uuid, next, k - 1, s1, n1);
    FailsAtShift(h, st, s, items, userID, uuid, next, k - 1);
  }

  /** A failing first entry aborts the batch with its store's error and state. */
  lemma RunBatchFailsFirst<S>(h: Handler, st: Storage<S>, s: S, items: seq<BatchRequestItem>, userID: string,
                              uuid: nat -> string, next: nat)
    requires |items| > 0 && StoreFailsAt(h, st, s, items, userID, uuid, next, 0)
    ensures RunBatch(h, st, s, items, userID, uuid, next) ==
            Aborted(AfterEntry(h, st, s, items, userID, uuid, next, 0).0,
                    AfterEntry(h, st, s, items, userID, uuid, next, 0).1.err.value)
  {
    assert items[..0] == [];
  }

  /** After a successful first entry, an abort of the tail at entry k - 1 is
      an abort of the batch at entry k. */
  lemma RunBatchAbortsLater<S>(h: Handler, st: Storage<S>, s: S, items: seq<BatchRequestItem>, userID: string,
                               uuid: nat -> string, next: nat, k: nat)
    requires 0 < k < |items|
    requires !StoreFailsAt(h, st, s, items, userID, uuid, next, 0)
    requires var s1 := st.store(s, EntryRecord(h, items, userID, uuid, next, 0)).0;
             var a := AfterEntry(h, st, s1, items[1..], userID, uuid, next + 1, k - 1);
             a.1.err.Some? && RunBatch(h, st, s1, items[1..], userID, uuid, next + 1) == Aborted(a.0, a.1.err.value)
    ensures AfterEntry(h, st, s, items, userID, uuid, next, k).1.err.Some?
    ensures RunBatch(h, st, s, items, userID, uuid, next) ==
            Aborted(AfterEntry(h, st, s, items, userID, uuid, next, k).0,
                    AfterEntry(h, st, s, items, userID, uuid, next, k).1.err.value)
  {
    assert items[..0] == [];
    AfterEntryShift(h, st, s, items, userID, uuid, next, k - 1);
    RunBatchTail(h, st, s, items, userID, uuid, next);
  }

  /** When no store fails, the batch completes with every entry stored in order. */
  lemma {:induction false} RunBatchWithoutErrors<S>(h: Handler, st: Storage<S>, s: S, items: seq<BatchRequestItem>,
                                                    userID: string, uuid: nat -> string, next: nat)
    requires forall j :: 0 <= j < |items| ==> !StoreFailsAt(h, st, s, items, userID, uuid, next, j)
    ensures RunBatch(h, st, s, items, userID, uuid, next).Completed?
    ensures RunBatch(h, st, s, items, userID, uuid, next).state == StoreEntries(h, st, s, items, userID, uuid, next)
    decreases |items|
  {
    if |items| > 0 {
      var s1 := st.store(s, EntryRecord(h, items, userID, uuid, next, 0)).0;
      var n1 := next + 1;
      assert !StoreFailsAt(h, st, s, items, userID, uuid, next, 0);
      NoFailuresShift(h, st, s, items, userID, uuid, next, |items| - 1, s1, n1);
      RunBatchWithoutErrors(h, st, s1, items[1..], userID, uuid, n1);
      RunBatchTail(h, st, s, items, userID, uuid, next);
    }
  }

  /** `BatchShortenAPI`: 201 with one answer per entry, in order; a failing
      entry, the conflict signal included, ends the request with 500. */
  function BatchShortenAPI<S>(h: Handler, st: Storage<S>, s: S, body: Body<seq<BatchRequestItem>>, token: Token,
                              uuid: nat -> string): (r: Reply<S>)
    ensures r.deferred == Idle
    ensures r.response.status in {StatusBadRequest, StatusUnauthorized, StatusInternalServerError, StatusCreated}
    ensures r.response.status == StatusBadRequest <==> !body.Decoded?
    ensures r.response.status == StatusUnauthorized <==> body.Decoded? && token.err.Some?
    ensures r.response.status in {StatusBadRequest, StatusUnauthorized} ==> r.state == s
    ensures body.Decoded? && token.err.None? ==>
              var run := RunBatch(h, st, s, body.value, token.userID, uuid, 0);
              && r.state == run.state
              && (r.response.status == StatusCreated <==> run.Completed?)
              && (run.Aborted? ==> r.response.body == [Text(Message(run.error) + "\n")])
    ensures r.response.status == StatusCreated ==>
              && HasHeader(r.response, ContentType, "application/json")
              && |r.response.body| == 1 && r.response.body[0].BatchJson?
              && |r.response.body[0].items| == |body.value|
              && forall i :: 0 <= i < |body.value| ==> r.response.body[0].items[i] == Answer(h, body.value[i])
  {
    match body
    case ReadFailed(msg) => Reply(Finish(HttpError(Fresh, msg, StatusBadRequest)), s, Idle)
    case Malformed(msg) => Reply(Finish(HttpError(Fresh, msg, StatusBadRequest)), s, Idle)
    case Decoded(items) =>
      if token.err.Some? then Reply(Finish(WriteHeader(Fresh, StatusUnauthorized)), s, Idle)
      else
        match RunBatch(h, st, s, items, token.userID, uuid, 0)
        case Aborted(s2, e) => Reply(Finish(HttpError(Fresh, Message(e), StatusInternalServerError)), s2, Idle)
        case Completed(s2, answers) =>
          var w := WriteHeader(SetHeader(Fresh, ContentType, "application/json"), StatusCreated);
          Reply(Finish(Write(w, BatchJson(answers))), s2, Idle)
  }

  // ----- GET /api/user/urls -----

  /** The answer entries for a user's records. */
  function Links(h: Handler, batch: seq<ShortenedData>): (links: seq<UserLink>) {
    seq(|batch|, i requires 0 <= i < |batch| => UserLink(Link(h, batch[i].shortURL), batch[i].originalURL))
  }

  /** `FindUserURLS`: 401 without a user, 204 when the backend fails or has
      nothing for the user, otherwise 200 with every record's link. */
  function FindUserURLS<S>(h: Handler, st: Storage<S>, s: S, token: Token): (r: Reply<S>)
    ensures r.state == s && r.deferred == Idle
    ensures r.response.status in {StatusUnauthorized, StatusNoContent, StatusOK}
    ensures r.response.status == StatusUnauthorized <==> token.err.Some?
    ensures r.response.status == StatusOK <==>
              token.err.None? && st.batch(s, token.userID).Ok? && |st.batch(s, token.userID).value| > 0
    ensures r.response.status == StatusOK ==>
              var batch := st.batch(s, token.userID).value;
              && HasHeader(r.response, ContentType, "application/json")
              && |r.response.body| == 1 && r.response.body[0].LinksJson?
              && |r.response.body[0].links| == |batch|
              && forall i :: 0 <= i < |batch| ==>
                   r.response.body[0].links[i] == UserLink(Link(h, batch[i].shortURL), batch[i].originalURL)
  {
    if token.err.Some? then Reply(Finish(WriteHeader(Fresh, StatusUnauthorized)), s, Idle)
    else
      match st.batch(s, token.userID)
      case Err(_) => Reply(Finish(WriteHeader(Fresh, StatusNoContent)), s, Idle)
      case Ok(batch) =>
        if |batch| < 1 then Reply(Finish(WriteHeader(Fresh, StatusNoContent)), s, Idle)
        else
          var w := WriteHeader(SetHeader(Fresh, ContentType, "application/json"), StatusOK);
          Reply(Finish(Write(w, LinksJson(Links(h, batch)))), s, Idle)
  }

  // ----- DELETE /api/user/urls -----

  /** `DeleteURLs`: answers 202 at once and hands the codes, in request
      order, to a background deleter. */
  function DeleteURLs<S>(s: S, token: Token, body: Body<seq<string>>): (r: Reply<S>)
    ensures r.state == s && r.response.body == []
    ensures r.response.status in {StatusBadRequest, StatusInternalServerError, StatusAccepted}
    ensures r.response.status == StatusAccepted <==> token.err.None? && body.Decoded?
    ensures r.response.status == StatusInternalServerError <==> token.err.None? && body.ReadFailed?
    ensures r.deferred != Idle <==> r.response.status == StatusAccepted
    ensures r.response.status == StatusAccepted ==> r.deferred == MarkDeleted(token.userID, body.value)
  {
    if token.err.Some? then Reply(Finish(WriteHeader(Fresh, StatusBadRequest)), s, Idle)
    else
      match body
      case ReadFailed(_) => Reply(Finish(WriteHeader(Fresh, StatusInternalServerError)), s, Idle)
      case Malformed(_) => Reply(Finish(WriteHeader(Fresh, StatusBadRequest)), s, Idle)
      case Decoded(codes) => Reply(Finish(WriteHeader(Fresh, StatusAccepted)), s, MarkDeleted(token.userID, codes))
  }

  /** `MarkAsDeleted`: one delete per code, in order; a failing delete is
      only logged and the next code is still processed. */
  function MarkAsDeleted<S>(st: Storage<S>, s: S, userID: string, codes: seq<string>): (r: S)
    ensures |codes| == 0 ==> r == s
    ensures |codes| == 1 ==> r == st.delete(s, userID, codes[0]).0
    decreases |codes|
  {
    if |codes| == 0 then s
    else MarkAsDeleted(st, st.delete(s, userID, codes[0]).0, userID, codes[1..])
  }

  /** The errors a backend reports do not change what the deleter leaves
      behind: it ends as it would on a backend whose deletes never fail. */
  lemma {:induction false} MarkAsDeletedIgnoresErrors<S>(st: Storage<S>, s: S, userID: string, codes: seq<string>)
    ensures MarkAsDeleted(st, s, userID, codes) == MarkAsDeleted(Quiet(st), s, userID, codes)
    decreases |codes|
  {
    if |codes| > 0 {
      QuietDelete(st, s, userID, codes[0]);
      MarkAsDeletedIgnoresErrors(st, st.delete(s, userID, codes[0]).0, userID, codes[1..]);
    }
  }

  /** Deleting a list of codes is deleting a prefix, then the rest from the
      state the prefix left: every code is attempted, in list order. */
  lemma {:induction false} MarkAsDeletedSplit<S>(st: Storage<S>, s: S, userID: string, codes: seq<string>, k: nat)
    requires k <= |codes|
    ensures MarkAsDeleted(st, s, userID, codes) ==
            MarkAsDeleted(st, MarkAsDeleted(st, s, userID, codes[..k]), userID, codes[k..])
    decreases k
  {
    if k > 0 {
      var s1 := st.delete(s, userID, codes[0]).0;
      MarkAsDeletedSplit(st, s1, userID, codes[1..], k - 1);
      assert codes[..k][0] == codes[0] && codes[..k][1..] == codes[1..][..k - 1];
      assert codes[1..][k - 1..] == codes[k..];
    } else {
      assert codes[k..] == codes;
    }
  }

  /** The state once the background work a reply left behind has finished. */
  function Settle<S>(st: Storage<S>, r: Reply<S>): S {
    match r.deferred
    case Idle => r.state
    case MarkDeleted(userID, codes) => MarkAsDeleted(st, r.state, userID, codes)
  }

  // ----- GET /api/internal/stats -----

  /** A parsed CIDR block, as the set of addresses it contains. */
  datatype Subnet = Subnet(contains: string -> bool)

  /** `checkIPIsTrusted`. `subnet` is `net.ParseCIDR` of the configured
      subnet and `parseIP` is `net.ParseIP`. An unparsable client address
      returns the (nil) error of the subnet parse, so it is "not trusted",
      not a failure. */
  function CheckIPIsTrusted(subnet: Result<Subnet, string>, parseIP: string -> Option<string>, clientIP: string)
    : (r: (bool, Option<string>))
    ensures r.1.Some? <==> subnet.Err?
    ensures r.0 <==> subnet.Ok? && parseIP(clientIP).Some? && subnet.value.contains(parseIP(clientIP).value)
  {
    match subnet
    case Err(e) => (false, Some(e))
    case Ok(net) =>
      match parseIP(clientIP)
      case None => (false, None)
      case Some(ip) => if !net.contains(ip) then (false, None) else (true, None)
  }

  /** `GetStats`: only a client whose X-Real-IP lies in the trusted subnet
      gets the statistic. */
  function GetStats<S>(st: Storage<S>, s: S, realIP: string, subnet: Result<Subnet, string>,
                       parseIP: string -> Option<string>): (r: Reply<S>)
    ensures r.state == s && r.deferred == Idle
    ensures r.response.status in {StatusForbidden, StatusInternalServerError, StatusOK}
    ensures r.response.status == StatusOK <==>
              realIP != "" && CheckIPIsTrusted(subnet, parseIP, realIP).0 && st.statistic(s).Some?
    ensures r.response.status == StatusForbidden <==>
              realIP == "" || (subnet.Ok? && !CheckIPIsTrusted(subnet, parseIP, realIP).0)
    ensures r.response.status == StatusOK ==>
              r.response.body == [StatsJson(st.statistic(s).value)] && HasHeader(r.response, ContentType, "application/json")
  {
    if realIP == "" then Reply(Finish(WriteHeader(Fresh, StatusForbidden)), s, Idle)
    else
      var (trusted, err) := CheckIPIsTrusted(subnet, parseIP, realIP);
      if err.Some? then Reply(Finish(WriteHeader(Fresh, StatusInternalServerError)), s, Idle)
      else if !trusted then Reply(Finish(WriteHeader(Fresh, StatusForbidden)), s, Idle)
      else
        match st.statistic(s)
        case None => Reply(Finish(WriteHeader(Fresh, StatusInternalServerError)), s, Idle)
        case Some(stat) =>
          var w := WriteHeader(SetHeader(Fresh, ContentType, "application/json"), StatusOK);
          Reply(Finish(Write(w, StatsJson(stat))), s, Idle)
  }

  // ----- the handlers over the database backend -----

  /** No row holds the URL or its short code. */
  ghost predicate Unseen(h: Handler, t: DatabaseStorage.Table, url: string) {
    forall k :: 0 <= k < |t| ==> t[k].originalURL != url && t[k].shortURL != Code(h, url)
  }

  /** Shortening the same URL twice, by any two users: the first request
      creates the link (201), the second gets the same link back with 409 and
      changes nothing. */
  lemma ShortenTwiceOnDatabase(h: Handler, t: DatabaseStorage.Table, url: string, user1: string, user2: string,
                               uuid1: string, uuid2: string)
    requires DatabaseStorage.Valid(t) && url != "" && Unseen(h, t, url)
    ensures var first := Shorten(h, Db, t, "POST", Some(url), Token(user1, None), uuid1);
            var second := Shorten(h, Db, first.state, "POST", Some(url), Token(user2, None), uuid2);
            && first.response.status == StatusCreated
            && second.response.status == StatusConflict
            && first.response.body == [Text(Link(h, Code(h, url)))]
            && second.response.body == first.response.body
            && first.state == t + [NewRecord(h.md5, uuid1, user1, url)]
            && second.state == first.state
  {
    DatabaseStorage.StoreTwice(t, NewRecord(h.md5, uuid1, user1, url), NewRecord(h.md5, uuid2, user2, url));
  }

  /** The link a 201 hands out redirects to the URL that was shortened. */
  lemma FindAfterShortenOnDatabase(h: Handler, t: DatabaseStorage.Table, url: string, userID: string, uuid: string)
    requires DatabaseStorage.Valid(t) && url != "" && Unseen(h, t, url)
    ensures var first := Shorten(h, Db, t, "POST", Some(url), Token(userID, None), uuid);
            var find := FindByShortLink(Db, first.state, "GET", Code(h, url));
            && first.response.status == StatusCreated
            && find.response.status == StatusTemporaryRedirect
            && HasHeader(find.response, Location, url)
  {
    DatabaseStorage.GetAfterStore(t, NewRecord(h.md5, uuid, userID, url));
  }

  /** A new URL whose short code is already taken by another URL is not
      stored, yet the client is told 201 and handed a link that redirects
      to the other URL: errors other than the conflict signal are ignored. */
  lemma ShortenCodeCollisionOnDatabase(h: Handler, t: DatabaseStorage.Table, url: string, userID: string, uuid: string,
                                       row: nat)
    requires DatabaseStorage.Valid(t) && url != ""
    requires forall k :: 0 <= k < |t| ==> t[k].originalURL != url
    requires row < |t| && t[row].shortURL == Code(h, url)
    ensures var r := Shorten(h, Db, t, "POST", Some(url), Token(userID, None), uuid);
            var find := FindByShortLink(Db, r.state, "GET", Code(h, url));
            && r.response.status == StatusCreated
            && r.response.body == [Text(Link(h, Code(h, url)))]
            && r.state == t
            && (if t[row].isDeleted then find.response.status == StatusGone
                else find.response.status == StatusTemporaryRedirect && HasHeader(find.response, Location, t[row].originalURL))
  {
    var g := DatabaseStorage.Get(t, Code(h, url), None);
    var i :| 0 <= i < |t| && t[i] == g.value;
    assert i == row;
  }

  /** The background deleter issues exactly the database's sequence of deletes. */
  lemma {:induction false} MarkAsDeletedOnDatabase(t: DatabaseStorage.Table, userID: string, codes: seq<string>)
    ensures MarkAsDeleted(Db, t, userID, codes) == DatabaseStorage.ApplyDeletes(t, userID, codes)
    decreases |codes|
  {
    if |codes| > 0 {
      MarkAsDeletedOnDatabase(DatabaseStorage.DeleteByUserIDAndShort(t, userID, codes[0], None).0, userID, codes[1..]);
    }
  }

  /** Once the owner's delete has been carried out, the link answers 410. */
  lemma DeletedLinkIsGone(t: DatabaseStorage.Table, row: nat, codes: seq<string>)
    requires DatabaseStorage.Valid(t)
    requires row < |t| && t[row].shortURL in codes
    ensures var del := DeleteURLs(t, Token(t[row].userID, None), Decoded(codes));
            && del.response.status == StatusAccepted
            && FindByShortLink(Db, Settle(Db, del), "GET", t[row].shortURL).response.status == StatusGone
  {
    var userID, code := t[row].userID, t[row].shortURL;
    MarkAsDeletedOnDatabase(t, userID, codes);
    DatabaseStorage.ApplyDeletesEffect(t, userID, codes);
    var after := DatabaseStorage.ApplyDeletes(t, userID, codes);
    assert after[row].shortURL == code;
    var g := DatabaseStorage.Get(after, code, None);
    var i :| 0 <= i < |after| && after[i] == g.value;
    assert t[i].shortURL == code;
    assert i == row;
  }

  /** Another user's delete of the same code leaves the link working. */
  lemma OthersCannotDelete(t: DatabaseStorage.Table, row: nat, userID: string, codes: seq<string>)
    requires DatabaseStorage.Valid(t)
    requires row < |t| && !t[row].isDeleted && userID != t[row].userID
    ensures var del := DeleteURLs(t, Token(userID, None), Decoded(codes));
            var find := FindByShortLink(Db, Settle(Db, del), "GET", t[row].shortURL);
            && find.response.status == StatusTemporaryRedirect
            && HasHeader(find.response, Location, t[row].originalURL)
  {
    var code := t[row].shortURL;
    MarkAsDeletedOnDatabase(t, userID, codes);
    DatabaseStorage.ApplyDeletesEffect(t, userID, codes);
    var after := DatabaseStorage.ApplyDeletes(t, userID, codes);
    assert after[row] == t[row];
    var g := DatabaseStorage.Get(after, code, None);
    var i :| 0 <= i < |after| && after[i] == g.value;
    assert t[i].shortURL == code;
    assert i == row;
  }

  /** A user's link list holds exactly the links of the rows that user owns. */
  lemma FindUserURLSOnDatabase(h: Handler, t: DatabaseStorage.Table, userID: string)
    ensures var r := FindUserURLS(h, Db, t, Token(userID, None));
            && (r.response.status == StatusOK <==> exists k :: 0 <= k < |t| && t[k].userID == userID)
            && (r.response.status != StatusOK ==> r.response.status == StatusNoContent)
            && (r.response.status == StatusOK ==>
                  r.response.body == [LinksJson(Links(h, DatabaseStorage.OwnedLinks(t, userID)))])
  {
  }

  /** The records a batch stores, entry by entry. */
  function BatchRecords(h: Handler, items: seq<BatchRequestItem>, userID: string, uuid: nat -> string, next: nat)
    : seq<ShortenedData>
  {
    seq(|items|, i requires 0 <= i < |items| => NewRecord(h.md5, uuid(next + i), userID, items[i].originalURL))
  }

  /** Every entry is new to the table and to the batch, URL and short code alike. */
  ghost predicate FreshBatch(h: Handler, t: DatabaseStorage.Table, items: seq<BatchRequestItem>) {
    && (forall i :: 0 <= i < |items| ==> Unseen(h, t, items[i].originalURL))
    && (forall i, j :: 0 <= i < j < |items| ==>
          items[i].originalURL != items[j].originalURL && Code(h, items[i].originalURL) != Code(h, items[j].originalURL))
  }

  /** Storing a record whose URL and code are both new appends it. */
  lemma DbStoreUnseen(h: Handler, t: DatabaseStorage.Table, uuid: string, userID: string, url: string)
    requires Unseen(h, t, url)
    ensures Db.store(t, NewRecord(h.md5, uuid, userID, url)) == (t + [NewRecord(h.md5, uuid, userID, url)], Stored(NewRecord(h.md5, uuid, userID, url), None))
  {
  }

  /** Once the first entry is stored, the rest of the batch is still new. */
  lemma FreshBatchTail(h: Handler, t: DatabaseStorage.Table, items: seq<BatchRequestItem>, d: ShortenedData)
    requires FreshBatch(h, t, items) && |items| > 0
    requires d.originalURL == items[0].originalURL && d.shortURL == Code(h, items[0].originalURL)
    ensures FreshBatch(h, t + [d], items[1..])
  {
    forall i | 0 <= i < |items[1..]|
      ensures Unseen(h, t + [d], items[1..][i].originalURL)
    {
      assert items[1..][i] == items[i + 1];
      assert Unseen(h, t, items[i + 1].originalURL);
    }
  }

  lemma BatchRecordsCons(h: Handler, items: seq<BatchRequestItem>, userID: string, uuid: nat -> string, next: nat)
    requires |items| > 0
    ensures [NewRecord(h.md5, uuid(next), userID, items[0].originalURL)] + BatchRecords(h, items[1..], userID, uuid, next + 1)
            == BatchRecords(h, items, userID, uuid, next)
  {
  }

  /** A batch of new URLs appends one row per entry, in order. */
  lemma {:induction false} BatchOnDatabase(h: Handler, t: DatabaseStorage.Table, items: seq<BatchRequestItem>,
                                           userID: string, uuid: nat -> string, next: nat)
    requires FreshBatch(h, t, items)
    ensures RunBatch(h, Db, t, items, userID, uuid, next).Completed?
    ensures RunBatch(h, Db, t, items, userID, uuid, next).state == t + BatchRecords(h, items, userID, uuid, next)
    decreases |items|
  {
    if |items| > 0 {
      var d := NewRecord(h.md5, uuid(next), userID, items[0].originalURL);
      DbStoreUnseen(h, t, uuid(next), userID, items[0].originalURL);
      FreshBatchTail(h, t, items, d);
      BatchOnDatabase(h, t + [d], items[1..], userID, uuid, next + 1);
      BatchRecordsCons(h, items, userID, uuid, next);
    }
  }

  /** Submitting a batch whose first URL is already stored fails the whole
      request with 500 and the conflict text, storing nothing. */
  lemma BatchConflictOnDatabase(h: Handler, t: DatabaseStorage.Table, items: seq<BatchRequestItem>, userID: string,
                                uuid: nat -> string, row: nat)
    requires |items| > 0 && row < |t| && t[row].originalURL == items[0].originalURL
    ensures var r := BatchShortenAPI(h, Db, t, Decoded(items), Token(userID, None), uuid);
            && r.response.status == StatusInternalServerError
            && r.response.body == [Text("URL already exists\n")]
            && r.state == t
  {
    var d := NewRecord(h.md5, uuid(0), userID, items[0].originalURL);
    assert DatabaseStorage.Store(t, d, None).err == Some(URLExists);
    assert RunBatch(h, Db, t, items, userID, uuid, 0) == Aborted(t, URLExists);
    assert Message(URLExists) + "\n" == "URL already exists\n";
  }

  /** A batch whose second URL is already stored fails with 500 and the
      conflict text, yet its new first entry stays stored. */
  lemma BatchConflictAfterStoreOnDatabase(h: Handler, t: DatabaseStorage.Table, a: BatchRequestItem,
                                          b: BatchRequestItem, userID: string, uuid: nat -> string, row: nat)
    requires Unseen(h, t, a.originalURL) && row < |t| && t[row].originalURL == b.originalURL
    ensures var r := BatchShortenAPI(h, Db, t, Decoded([a, b]), Token(userID, None), uuid);
            && r.response.status == StatusInternalServerError
            && r.response.body == [Text("URL already exists\n")]
            && r.state == t + [NewRecord(h.md5, uuid(0), userID, a.originalURL)]
  {
    var d := NewRecord(h.md5, uuid(0), userID, a.originalURL);
    var e := NewRecord(h.md5, uuid(1), userID, b.originalURL);
    DbStoreUnseen(h, t, uuid(0), userID, a.originalURL);
    assert (t + [d])[row].originalURL == e.originalURL;
    assert DatabaseStorage.Store(t + [d], e, None).err == Some(URLExists);
    assert [a, b][1..] == [b];
    assert RunBatch(h, Db, t + [d], [b], userID, uuid, 1) == Aborted(t + [d], URLExists);
    assert RunBatch(h, Db, t, [a, b], userID, uuid, 0) == Aborted(t + [d], URLExists);
    assert Message(URLExists) + "\n" == "URL already exists\n";
  }

  /** A trusted client is told the number of rows and of distinct owners. */
  lemma GetStatsOnDatabase(t: DatabaseStorage.Table, realIP: string, net: Subnet, parseIP: string -> Option<string>)
    requires realIP != "" && parseIP(realIP).Some? && net.contains(parseIP(realIP).value)
    ensures var r := GetStats(Db, t, realIP, Ok(net), parseIP);
            && r.response.status == StatusOK
            && r.response.body == [StatsJson(Statistic(|t|, |DatabaseStorage.Owners(t)|))]
  {
  }
}
