/** `DBStorage`: the `shortener` table as a sequence of rows with the two
    uniqueness constraints of its schema. SQL statements become pure
    functions on the table; a failure of the connection or of a statement is
    an input (`fault`, carrying the driver's text). */
module DatabaseStorage {
  import opened Results
  import opened Records

  /** The rows of `shortener` in insertion order; the surrogate `id` column is
      not modelled. */
  type Table = seq<ShortenedData>

  /** `short_url ... UNIQUE` and the unique index on `original_url`. */
  ghost predicate Valid(t: Table) {
    forall i, j :: 0 <= i < j < |t| ==> t[i].shortURL != t[j].shortURL && t[i].originalURL != t[j].originalURL
  }

  /** The text of the unique violation the driver reports when a new original
      URL arrives with a short code that is already taken. */
  const ShortURLTaken := "pq: duplicate key value violates unique constraint \"shortener_short_url_key\""

  /** `NewDBStorage`: opening the connection and creating the table and the
      original-URL index if they do not exist. The rows already in the
      database are `existing`; `fault` is an error from the driver. */
  function NewDBStorage(existing: Table, fault: Option<string>): (r: Result<Table, Error>)
    ensures r.Ok? <==> fault.None?
    ensures r.Ok? ==> r.value == existing
    ensures r.Err? ==> Message(r.error) == fault.value
  {
    if fault.Some? then Err(Failure(fault.value)) else Ok(existing)
  }

  /** `Ping` and `Close`: the driver's answer, passed through. */
  function Ping(fault: Option<string>): (err: Option<Error>)
    ensures err.None? <==> fault.None?
    ensures err.Some? ==> Message(err.value) == fault.value
  {
    if fault.Some? then Some(Failure(fault.value)) else None
  }

  function Close(fault: Option<string>): (err: Option<Error>)
    ensures err.None? <==> fault.None?
    ensures err.Some? ==> Message(err.value) == fault.value
  {
    Ping(fault)
  }

  /** Position of the row holding `url` as original URL, if any. */
  function FindOriginal(t: Table, url: string): (r: Option<nat>)
    ensures r.Some? ==> r.value < |t| && t[r.value].originalURL == url
    ensures r.None? <==> forall i :: 0 <= i < |t| ==> t[i].originalURL != url
  {
    if |t| == 0 then None
    else if t[|t| - 1].originalURL == url then Some(|t| - 1)
    else FindOriginal(t[..|t| - 1], url)
  }

  /** Position of the row holding `code` as short code, if any. */
  function FindShort(t: Table, code: string): (r: Option<nat>)
    ensures r.Some? ==> r.value < |t| && t[r.value].shortURL == code
    ensures r.None? <==> forall i :: 0 <= i < |t| ==> t[i].shortURL != code
  {
    if |t| == 0 then None
    else if t[|t| - 1].shortURL == code then Some(|t| - 1)
    else FindShort(t[..|t| - 1], code)
  }

  /** The columns the conflict path selects: `is_deleted` is not among them,
      so the flag of the returned record is Go's zero value. */
  function Selected(row: ShortenedData): ShortenedData {
    ShortenedData(row.uuid, row.userID, row.shortURL, row.originalURL, false)
  }

  datatype StoreStep = StoreStep(table: Table, result: ShortenedData, err: Option<Error>)

  /** `Store`: `INSERT ... ON CONFLICT (original_url) DO NOTHING`. A new
      original URL adds one row and returns the input; an existing one leaves
      the table alone and returns that row (the caller's user id is dropped)
      with `ErrURLExists`; a new original URL whose short code is taken is a
      plain error from the other constraint. */
  function Store(t: Table, data: ShortenedData, fault: Option<string>): (r: StoreStep)
    ensures r.err.None? <==>
              fault.None? && forall i :: 0 <= i < |t| ==> t[i].originalURL != data.originalURL && t[i].shortURL != data.shortURL
    ensures r.err.None? ==> r.table == t + [data] && r.result == data
    ensures r.err.Some? ==> r.table == t
    ensures r.err == Some(URLExists) <==> fault.None? && exists i :: 0 <= i < |t| && t[i].originalURL == data.originalURL
    ensures r.err == Some(URLExists) ==>
              exists i :: 0 <= i < |t| && t[i].originalURL == data.originalURL && r.result == Selected(t[i])
    ensures r.err.Some? && r.err != Some(URLExists) ==> r.result == Blank
    ensures r.err == Some(URLExists) ==> !r.result.isDeleted
    ensures Valid(t) ==> Valid(r.table)
  {
    if fault.Some? then StoreStep(t, Blank, Some(Failure(fault.value)))
    else
      match FindOriginal(t, data.originalURL)
      case Some(i) => StoreStep(t, Selected(t[i]), Some(URLExists))
      case None =>
        if FindShort(t, data.shortURL).Some? then StoreStep(t, Blank, Some(Failure(ShortURLTaken)))
        else StoreStep(t + [data], data, None)
  }

  /** `Get`: all five columns of the row with that short code, soft-deleted
      or not; "key not found: <key>" when there is none. */
  function Get(t: Table, key: string, fault: Option<string>): (r: Result<ShortenedData, Error>)
    ensures fault.Some? ==> r == Err(Failure(fault.value))
    ensures fault.None? ==> (r.Ok? <==> exists i :: 0 <= i < |t| && t[i].shortURL == key)
    ensures r.Ok? ==> r.value.shortURL == key && exists i :: 0 <= i < |t| && t[i] == r.value
    ensures fault.None? && r.Err? ==> r.error == KeyNotFound(key) && Message(r.error) == "key not found: " + key
  {
    if fault.Some? then Err(Failure(fault.value))
    else
      match FindShort(t, key)
      case Some(i) => Ok(t[i])
      case None => Err(KeyNotFound(key))
  }

  /** The two columns `GetBatchByUserID` selects; the other fields stay zero. */
  function Link(row: ShortenedData): ShortenedData {
    ShortenedData("", "", row.shortURL, row.originalURL, false)
  }

  /** The selected columns of every row owned by `userID`, deleted or not, in table order. */
  function OwnedLinks(t: Table, userID: string): (r: seq<ShortenedData>)
    ensures |r| <= |t|
    ensures forall i :: 0 <= i < |t| && t[i].userID == userID ==> Link(t[i]) in r
    ensures forall x :: x in r ==> exists i :: 0 <= i < |t| && t[i].userID == userID && x == Link(t[i])
    ensures |r| == 0 <==> forall i :: 0 <= i < |t| ==> t[i].userID != userID
  {
    if |t| == 0 then []
    else
      var front := OwnedLinks(t[..|t| - 1], userID);
      var last := t[|t| - 1];
      assert forall i :: 0 <= i < |t| - 1 ==> t[..|t| - 1][i] == t[i];
      if last.userID == userID then front + [Link(last)] else front
  }

  /** `GetBatchByUserID`: one entry per owned row; no owned row is an error. */
  function GetBatchByUserID(t: Table, userID: string, fault: Option<string>): (r: Result<seq<ShortenedData>, Error>)
    ensures fault.Some? ==> r == Err(Failure(fault.value))
    ensures fault.None? ==> (r.Err? <==> forall i :: 0 <= i < |t| ==> t[i].userID != userID)
    ensures fault.None? && r.Err? ==> r.error == NoBatches
    ensures r.Ok? ==> r.value == OwnedLinks(t, userID) && |r.value| > 0
  {
    if fault.Some? then Err(Failure(fault.value))
    else
      var links := OwnedLinks(t, userID);
      if |links| == 0 then Err(NoBatches) else Ok(links)
  }

  /** The row after `UPDATE ... SET is_deleted=true WHERE user_id=$1 AND short_url=$2`. */
  function Flagged(row: ShortenedData, userID: string, short: string): ShortenedData {
    if row.userID == userID && row.shortURL == short then row.(isDeleted := true) else row
  }

  /** `DeleteByUserIDAndShort`: soft-deletes the rows owned by `userID` with
      that short code. Zero matching rows is not an error: the affected-row
      check returns the (nil) error of `RowsAffected`. */
  function DeleteByUserIDAndShort(t: Table, userID: string, short: string, fault: Option<string>): (r: (Table, Option<Error>))
    ensures fault.Some? ==> r == (t, Some(Failure(fault.value)))
    ensures fault.None? ==> r.1 == None
    ensures |r.0| == |t|
    ensures forall i :: 0 <= i < |t| ==> r.0[i] == if fault.None? then Flagged(t[i], userID, short) else t[i]
  {
    if fault.Some? then (t, Some(Failure(fault.value)))
    else (seq(|t|, i requires 0 <= i < |t| => Flagged(t[i], userID, short)), None)
  }

  /** The distinct owners of the rows. */
  function Owners(t: Table): set<string> {
    set i | 0 <= i < |t| :: t[i].userID
  }

  /** There are never more distinct owners than rows. */
  lemma {:induction false} OwnersBound(t: Table)
    ensures |Owners(t)| <= |t|
    decreases |t|
  {
    if |t| > 0 {
      var front := t[..|t| - 1];
      OwnersBound(front);
      assert Owners(t) == Owners(front) + {t[|t| - 1].userID} by {
        forall u | u in Owners(t) ensures u in Owners(front) + {t[|t| - 1].userID} {
          var i :| 0 <= i < |t| && t[i].userID == u;
          if i < |t| - 1 {
            assert front[i].userID == u;
          }
        }
        forall u | u in Owners(front) ensures u in Owners(t) {
          var i :| 0 <= i < |front| && front[i].userID == u;
          assert t[i].userID == u;
        }
      }
    } else {
      assert Owners(t) == {};
    }
  }

  /** `GetStatistic`: `count(*)` counts every row, soft-deleted ones
      included, and `count(DISTINCT user_id)` the owners; a failed query
      gives nil. */
  function GetStatistic(t: Table, fault: Option<string>): (r: Option<Statistic>)
    ensures r.None? <==> fault.Some?
    ensures r.Some? ==> r.value.urls == |t| && r.value.users == |Owners(t)|
    ensures r.Some? ==> 0 <= r.value.users <= r.value.urls
    ensures r.Some? && |t| > 0 ==> r.value.users >= 1
  {
    OwnersBound(t);
    assert |t| > 0 ==> t[0].userID in Owners(t);
    if fault.Some? then None else Some(Statistic(|t|, |Owners(t)|))
  }

  // ----- properties across calls -----

  /** Round trip: a successful `Store` is read back whole by its short code. */
  lemma GetAfterStore(t: Table, data: ShortenedData)
    requires Valid(t)
    requires Store(t, data, None).err.None?
    ensures Get(Store(t, data, None).table, data.shortURL, None) == Ok(data)
  {
    var t' := Store(t, data, None).table;
    assert t'[|t|] == data;
    var r := Get(t', data.shortURL, None);
    var i :| 0 <= i < |t'| && t'[i] == r.value;
    assert i == |t|;
  }

  /** Idempotent store: submitting an already stored original URL again, by
      any user, changes nothing and hands back the first row's UUID, owner
      and short code with the conflict signal. */
  lemma StoreTwice(t: Table, first: ShortenedData, second: ShortenedData)
    requires Valid(t)
    requires Store(t, first, None).err.None?
    requires second.originalURL == first.originalURL
    ensures var t1 := Store(t, first, None).table;
            var again := Store(t1, second, None);
            again.err == Some(URLExists) && again.table == t1
            && again.result == Selected(first)
  {
    var t1 := Store(t, first, None).table;
    var again := Store(t1, second, None);
    var i :| 0 <= i < |t1| && t1[i].originalURL == second.originalURL && again.result == Selected(t1[i]);
    assert i == |t|;
  }

  /** Ownership: a delete by `userID` touches only that user's rows with
      that code, only to set the flag; everything else stays as it was. */
  lemma DeleteOnlyFlagsOwnedRow(t: Table, userID: string, short: string, i: nat)
    requires i < |t|
    ensures var t' := DeleteByUserIDAndShort(t, userID, short, None).0;
            && t'[i].(isDeleted := t[i].isDeleted) == t[i]
            && (t'[i].isDeleted <==> t[i].isDeleted || (t[i].userID == userID && t[i].shortURL == short))
  {
  }

  /** A delete that matches no row, such as one by a user who does not own
      the code, is a silent no-op: the table is unchanged and no error is
      returned. */
  lemma NonOwnerDeleteIsSilentNoOp(t: Table, userID: string, short: string)
    requires forall i :: 0 <= i < |t| ==> t[i].userID != userID || t[i].shortURL != short
    ensures DeleteByUserIDAndShort(t, userID, short, None) == (t, None)
  {
    var t' := DeleteByUserIDAndShort(t, userID, short, None).0;
    assert forall i :: 0 <= i < |t| ==> t'[i] == t[i];
    assert t' == t;
  }

  /** Soft delete: after the owner deletes a code, `Get` still finds the row,
      now flagged, with its original URL intact. */
  lemma GetAfterOwnerDelete(t: Table, row: nat, short: string)
    requires Valid(t)
    requires row < |t| && t[row].shortURL == short
    ensures var t' := DeleteByUserIDAndShort(t, t[row].userID, short, None).0;
            Get(t', short, None) == Ok(t[row].(isDeleted := true))
  {
    var t' := DeleteByUserIDAndShort(t, t[row].userID, short, None).0;
    var r := Get(t', short, None);
    var i :| 0 <= i < |t'| && t'[i] == r.value;
    assert t'[i].shortURL == t[i].shortURL;
    assert i == row;
  }

  /** Deletes keep both uniqueness constraints. */
  lemma DeletePreservesValid(t: Table, userID: string, short: string, fault: Option<string>)
    requires Valid(t)
    ensures Valid(DeleteByUserIDAndShort(t, userID, short, fault).0)
  {
  }

  /** The sequential effect of deleting a list of codes for one user, one
      call per code, as the background deleter issues them. */
  function ApplyDeletes(t: Table, userID: string, codes: seq<string>): Table
    decreases |codes|
  {
    if |codes| == 0 then t
    else ApplyDeletes(DeleteByUserIDAndShort(t, userID, codes[0], None).0, userID, codes[1..])
  }

  /** After a batch delete, a row is flagged exactly when it was flagged
      before or its owner is the user and its code is listed; nothing else
      changes. */
  lemma {:induction false} ApplyDeletesEffect(t: Table, userID: string, codes: seq<string>)
    ensures |ApplyDeletes(t, userID, codes)| == |t|
    ensures forall i :: 0 <= i < |t| ==>
              ApplyDeletes(t, userID, codes)[i] ==
                if t[i].userID == userID && t[i].shortURL in codes then t[i].(isDeleted := true) else t[i]
    decreases |codes|
  {
    if |codes| > 0 {
      var t1 := DeleteByUserIDAndShort(t, userID, codes[0], None).0;
      ApplyDeletesEffect(t1, userID, codes[1..]);
      forall i | 0 <= i < |t|
        ensures ApplyDeletes(t, userID, codes)[i] ==
                  if t[i].userID == userID && t[i].shortURL in codes then t[i].(isDeleted := true) else t[i]
      {
        assert t[i].shortURL in codes <==> t[i].shortURL == codes[0] || t[i].shortURL in codes[1..] by {
          assert codes == [codes[0]] + codes[1..];
        }
      }
    }
  }
}
