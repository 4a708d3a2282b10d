/** `FileStorage`: an in-memory map keyed by short code, written through to a
    newline-delimited JSON log and rebuilt from that log at start-up. The
    file system is a value (`Disk`); JSON is an abstract codec. */
module FileStorage {
  import opened Results
  import opened Records
  import MemoryStorage
  import opened Bytes
  import opened LineLog

  /** `json.Marshal` and `json.Unmarshal` for one record, on the UTF-8 bytes
      of its JSON text. */
  datatype Codec = Codec(marshal: ShortenedData -> seq<byte>, unmarshal: seq<byte> -> Option<ShortenedData>)

  /** What the model relies on of the JSON pair: a marshalled record reads
      back as itself, and it is one line (`json.Marshal` escapes control
      characters, so no raw line feed or carriage return appears). The record
      round trip holds because every field is a sequence of Unicode scalar
      values, which Go encodes as valid UTF-8. */
  ghost predicate ValidCodec(c: Codec) {
    forall d :: c.unmarshal(c.marshal(d)) == Some(d) && IsLine(c.marshal(d))
  }

  /** The storage file as `os.OpenFile` finds it: missing, its bytes, or an
      error. */
  datatype Disk = Absent | Contents(text: seq<byte>) | Denied(reason: string)

  /** The bytes of the file before a write: a missing file is created empty. */
  function PriorText(disk: Disk): seq<byte> {
    if disk.Contents? then disk.text else []
  }

  datatype FileStorage = FileStorage(mem: MemoryStorage.InMemoryStorage<ShortenedData>, path: string)

  /** The invariant `Store` keeps: every record is bound under its own short code. */
  ghost predicate KeyedByShortURL(m: map<string, ShortenedData>) {
    forall k :: k in m ==> m[k].shortURL == k
  }

  /** `order` lists every key of the map exactly once, as a Go `range` over it does. */
  ghost predicate Enumerates(order: seq<string>, keys: set<string>) {
    && (forall i :: 0 <= i < |order| ==> order[i] in keys)
    && (forall k :: k in keys ==> k in order)
    && (forall i, j :: 0 <= i < j < |order| ==> order[i] != order[j])
  }

  /** Line i decodes to a record with short code k. */
  predicate Binds(c: Codec, lines: seq<seq<byte>>, i: int, k: string) {
    0 <= i < |lines| && c.unmarshal(lines[i]).Some? && c.unmarshal(lines[i]).value.shortURL == k
  }

  /** Line i is the last line that decodes to a record with short code k. */
  predicate LastBinds(c: Codec, lines: seq<seq<byte>>, i: int, k: string) {
    Binds(c, lines, i, k) && forall j :: i < j < |lines| ==> !Binds(c, lines, j, k)
  }

  /** The record each decodable line binds under its short code, a later
      line replacing an earlier one with the same code. */
  function Bindings(c: Codec, lines: seq<seq<byte>>): map<string, ShortenedData>
    decreases |lines|
  {
    if |lines| == 0 then map[] else LineBinding(c, lines[0]) + Bindings(c, lines[1..])
  }

  /** What one line binds: its record under its code, or nothing. */
  function LineBinding(c: Codec, line: seq<byte>): map<string, ShortenedData> {
    match c.unmarshal(line)
    case Some(d) => map[d.shortURL := d]
    case None => map[]
  }

  /** Map union is associative and has the empty map as its left unit. */
  lemma UnionLaws(x: map<string, ShortenedData>, y: map<string, ShortenedData>, z: map<string, ShortenedData>)
    ensures x + (y + z) == (x + y) + z
    ensures map[] + x == x
  {
    var lhs, rhs := x + (y + z), (x + y) + z;
    assert lhs.Keys == rhs.Keys;
    assert forall k :: k in lhs ==> lhs[k] == rhs[k];
    assert (map[] + x).Keys == x.Keys;
  }

  lemma BindsShift(c: Codec, lines: seq<seq<byte>>, i: int, k: string)
    requires |lines| > 0 && 0 < i
    ensures Binds(c, lines, i, k) <==> Binds(c, lines[1..], i - 1, k)
  {
    if i < |lines| {
      assert lines[1..][i - 1] == lines[i];
    }
  }

  /** The bindings hold exactly the codes some line decodes to, each bound
      to the record of the last line with that code. */
  lemma {:induction false} BindingsLast(c: Codec, lines: seq<seq<byte>>)
    ensures forall k :: k in Bindings(c, lines) <==> exists i :: Binds(c, lines, i, k)
    ensures forall k :: k in Bindings(c, lines) ==>
              exists i :: LastBinds(c, lines, i, k) && Bindings(c, lines)[k] == c.unmarshal(lines[i]).value
    decreases |lines|
  {
    if |lines| > 0 {
      var rest := Bindings(c, lines[1..]);
      BindingsLast(c, lines[1..]);
      forall k | exists i :: Binds(c, lines, i, k)
        ensures k in Bindings(c, lines)
      {
        var i :| Binds(c, lines, i, k);
        if i > 0 {
          BindsShift(c, lines, i, k);
        }
      }
      forall k | k in Bindings(c, lines)
        ensures exists i :: LastBinds(c, lines, i, k) && Bindings(c, lines)[k] == c.unmarshal(lines[i]).value
      {
        if k in rest {
          var i :| LastBinds(c, lines[1..], i, k) && rest[k] == c.unmarshal(lines[1..][i]).value;
          BindsShift(c, lines, i + 1, k);
          forall j | i + 1 < j < |lines| ensures !Binds(c, lines, j, k) {
            BindsShift(c, lines, j, k);
          }
          assert LastBinds(c, lines, i + 1, k);
        } else {
          forall j | 0 < j < |lines| ensures !Binds(c, lines, j, k) {
            BindsShift(c, lines, j, k);
          }
          assert LastBinds(c, lines, 0, k);
        }
      }
    }
  }

  /** Every line decodes. */
  predicate AllDecode(c: Codec, lines: seq<seq<byte>>) {
    forall i :: 0 <= i < |lines| ==> c.unmarshal(lines[i]).Some?
  }

  /** Line i is the first one that does not decode. */
  predicate FirstBad(c: Codec, lines: seq<seq<byte>>, i: int) {
    && 0 <= i < |lines|
    && c.unmarshal(lines[i]).None?
    && forall j :: 0 <= j < i ==> c.unmarshal(lines[j]).Some?
  }

  /** After a first line that decodes, the remaining lines decide both
      whether all lines decode and which one is the first bad one. */
  lemma DecodeShift(c: Codec, lines: seq<seq<byte>>)
    requires |lines| > 0 && c.unmarshal(lines[0]).Some?
    ensures AllDecode(c, lines) <==> AllDecode(c, lines[1..])
    ensures forall i :: FirstBad(c, lines[1..], i) ==> FirstBad(c, lines, i + 1) && lines[i + 1] == lines[1..][i]
  {
    if AllDecode(c, lines[1..]) {
      forall i | 1 <= i < |lines| ensures c.unmarshal(lines[i]).Some? {
        assert lines[i] == lines[1..][i - 1];
      }
    }
    forall i | FirstBad(c, lines[1..], i) ensures FirstBad(c, lines, i + 1) {
      forall j | 1 <= j < i + 1 ensures c.unmarshal(lines[j]).Some? {
        assert lines[j] == lines[1..][j - 1];
      }
    }
  }

  /** Storing a decoded record on top of `acc` and then the bindings of the
      remaining lines is `acc` with the bindings of all the lines. */
  lemma BindingsStep(c: Codec, lines: seq<seq<byte>>, d: ShortenedData, acc: map<string, ShortenedData>)
    requires |lines| > 0 && c.unmarshal(lines[0]) == Some(d)
    ensures acc[d.shortURL := d] + Bindings(c, lines[1..]) == acc + Bindings(c, lines)
  {
    var rest := Bindings(c, lines[1..]);
    assert LineBinding(c, lines[0]) == map[d.shortURL := d];
    var lhs, rhs := acc[d.shortURL := d] + rest, acc + (map[d.shortURL := d] + rest);
    assert lhs.Keys == rhs.Keys;
    assert forall k :: k in lhs ==> lhs[k] == rhs[k];
  }

  /** The loop of `readFromFile`: decode each line in order and store the
      record under its short code, a later line overwriting an earlier one;
      the first line that does not decode aborts the whole load. */
  function Replay(c: Codec, lines: seq<seq<byte>>, acc: MemoryStorage.InMemoryStorage<ShortenedData>)
    : (r: Result<MemoryStorage.InMemoryStorage<ShortenedData>, Error>)
    ensures r.Ok? <==> AllDecode(c, lines)
    ensures r.Err? ==> exists i :: FirstBad(c, lines, i) && r.error == BadLine(lines[i])
    ensures r.Ok? ==> r.value.data == acc.data + Bindings(c, lines)
    ensures r.Ok? && KeyedByShortURL(acc.data) ==> KeyedByShortURL(r.value.data)
    decreases |lines|
  {
    if |lines| == 0 then
      assert acc.data + map[] == acc.data;
      Ok(acc)
    else
      match c.unmarshal(lines[0])
      case None => assert FirstBad(c, lines, 0); Err(BadLine(lines[0]))
      case Some(d) =>
        var r := Replay(c, lines[1..], MemoryStorage.Store(acc, d.shortURL, d).0);
        DecodeShift(c, lines);
        BindingsStep(c, lines, d, acc.data);
        assert r.Err? ==> exists i :: FirstBad(c, lines, i) && r.error == BadLine(lines[i]) by {
          if r.Err? {
            var i :| FirstBad(c, lines[1..], i) && r.error == BadLine(lines[1..][i]);
            assert FirstBad(c, lines, i + 1);
          }
        }
        r
  }

  /** `NewFileStorage` with `readFromFile`: open (creating when missing), then
      replay every line into a fresh in-memory store. */
  function NewFileStorage(c: Codec, path: string, disk: Disk): (r: Result<FileStorage, Error>)
    ensures disk.Denied? ==> r == Err(Failure(disk.reason))
    ensures disk.Absent? ==> r.Ok? && r.value.mem.data == map[]
    ensures r.Ok? ==> r.value.path == path && KeyedByShortURL(r.value.mem.data)
    ensures disk.Contents? ==> (r.Ok? <==> AllDecode(c, Lines(disk.text)))
    ensures disk.Contents? && r.Ok? ==> r.value.mem.data == Bindings(c, Lines(disk.text))
  {
    match disk
    case Denied(reason) => Err(Failure(reason))
    case Absent => Ok(FileStorage(MemoryStorage.New(), path))
    case Contents(text) =>
      match Replay(c, Lines(text), MemoryStorage.New())
      case Err(e) => Err(e)
      case Ok(mem) =>
        assert map[] + Bindings(c, Lines(text)) == Bindings(c, Lines(text));
        Ok(FileStorage(mem, path))
  }

  /** The log lines for the entries of `m`, in the order `order` visits them. */
  function LogLines(c: Codec, m: map<string, ShortenedData>, order: seq<string>): (ls: seq<seq<byte>>)
    requires forall i :: 0 <= i < |order| ==> order[i] in m
    ensures |ls| == |order|
    ensures forall i :: 0 <= i < |order| ==> ls[i] == c.marshal(m[order[i]])
  {
    if |order| == 0 then [] else [c.marshal(m[order[0]])] + LogLines(c, m, order[1..])
  }

  /** The bytes `Save` writes: one marshalled record and a line feed per entry. */
  function LogText(c: Codec, m: map<string, ShortenedData>, order: seq<string>): seq<byte>
    requires forall i :: 0 <= i < |order| ==> order[i] in m
  {
    Join(LogLines(c, m, order))
  }

  /** `Save` as written: the file is opened write-only and created when
      missing, but not truncated, so the log is written over the start of
      the previous contents. */
  function Save(c: Codec, s: FileStorage, order: seq<string>, disk: Disk): (r: (Disk, Option<Error>))
    requires Enumerates(order, s.mem.data.Keys)
    ensures r.1.Some? <==> disk.Denied?
    ensures disk.Denied? ==> r == (disk, Some(Failure(disk.reason)))
    ensures !disk.Denied? ==> r.0.Contents? && |r.0.text| >= |PriorText(disk)|
    ensures !disk.Denied? ==> var log := LogText(c, s.mem.data, order); |log| <= |r.0.text| && r.0.text[..|log|] == log
  {
    match disk
    case Denied(reason) => (disk, Some(Failure(reason)))
    case Absent => (Contents(LogText(c, s.mem.data, order)), None)
    case Contents(prior) => (Contents(Overwrite(prior, LogText(c, s.mem.data, order))), None)
  }

  /** `Save` with the truncation the full-file rewrite needs: afterwards the
      file holds exactly the log of the current map. */
  function SaveTruncating(c: Codec, s: FileStorage, order: seq<string>, disk: Disk): (r: (Disk, Option<Error>))
    requires Enumerates(order, s.mem.data.Keys)
    ensures r.1.Some? <==> disk.Denied?
    ensures disk.Denied? ==> r == (disk, Some(Failure(disk.reason)))
    ensures !disk.Denied? ==> r.0 == Contents(LogText(c, s.mem.data, order))
  {
    match disk
    case Denied(reason) => (disk, Some(Failure(reason)))
    case _ => (Contents(LogText(c, s.mem.data, order)), None)
  }

  /** What one `Store` leaves behind and returns. */
  datatype StoreStep = StoreStep(storage: FileStorage, disk: Disk, result: ShortenedData, err: Option<Error>)

  /** The map after binding a record under its short code, replacing any
      record with that code; there is no check for an existing original URL. */
  function Bind(s: FileStorage, data: ShortenedData): (next: FileStorage)
    ensures next.path == s.path
    ensures next.mem.data.Keys == s.mem.data.Keys + {data.shortURL}
    ensures next.mem.data[data.shortURL] == data
    ensures forall k :: k in s.mem.data && k != data.shortURL ==> next.mem.data[k] == s.mem.data[k]
    ensures KeyedByShortURL(s.mem.data) ==> KeyedByShortURL(next.mem.data)
  {
    FileStorage(MemoryStorage.Store(s.mem, data.shortURL, data).0, s.path)
  }

  /** `Store` as written: bind the record, then rewrite the file with `Save`,
      which does not truncate it. The returned record is always empty; the
      error is exactly the error of the rewrite. */
  function Store(c: Codec, s: FileStorage, data: ShortenedData, order: seq<string>, disk: Disk): (r: StoreStep)
    requires Enumerates(order, s.mem.data.Keys + {data.shortURL})
    ensures r.result == Blank
    ensures r.storage == Bind(s, data)
    ensures r.err.Some? <==> disk.Denied?
    ensures !disk.Denied? ==>
              var log := LogText(c, r.storage.mem.data, order);
              && r.disk.Contents? && |r.disk.text| >= |PriorText(disk)|
              && |log| <= |r.disk.text| && r.disk.text[..|log|] == log
    ensures (r.disk, r.err) == Save(c, r.storage, order, disk)
  {
    var next := Bind(s, data);
    var (disk', err) := Save(c, next, order, disk);
    StoreStep(next, disk', Blank, err)
  }

  /** `Store` with the truncating rewrite: afterwards the file holds exactly
      the log of the new map. */
  function StoreTruncating(c: Codec, s: FileStorage, data: ShortenedData, order: seq<string>, disk: Disk)
    : (r: StoreStep)
    requires Enumerates(order, s.mem.data.Keys + {data.shortURL})
    ensures r.result == Blank
    ensures r.storage == Bind(s, data)
    ensures r.err.Some? <==> disk.Denied?
    ensures !disk.Denied? ==> r.disk == Contents(LogText(c, r.storage.mem.data, order))
  {
    var next := Bind(s, data);
    var (disk', err) := SaveTruncating(c, next, order, disk);
    StoreStep(next, disk', Blank, err)
  }

  /** `Get`: the record bound to the short code, or "key not found: <key>". */
  function Get(s: FileStorage, key: string): (r: Result<ShortenedData, Error>)
    ensures r.Ok? <==> key in s.mem.data
    ensures r.Ok? ==> r.value == s.mem.data[key]
    ensures r.Err? ==> Message(r.error) == "key not found: " + key
  {
    MemoryStorage.Get(s.mem, key)
  }

  /** `Ping` never fails. */
  function Ping(s: FileStorage): (err: Option<Error>)
    ensures err.None?
  {
    None
  }

  /** `Close` is the as-written rewrite `Save`: the current log is written
      over the start of the file, which never gets shorter. */
  function Close(c: Codec, s: FileStorage, order: seq<string>, disk: Disk): (r: (Disk, Option<Error>))
    requires Enumerates(order, s.mem.data.Keys)
    ensures r.1.Some? <==> disk.Denied?
    ensures !disk.Denied? ==>
              var log := LogText(c, s.mem.data, order);
              && r.0.Contents? && |r.0.text| >= |PriorText(disk)|
              && |log| <= |r.0.text| && r.0.text[..|log|] == log
    ensures r == Save(c, s, order, disk)
  {
    Save(c, s, order, disk)
  }

  /** `GetBatchByUserID` is a stub: whatever the user, one empty record and no error. */
  function GetBatchByUserID(s: FileStorage, userID: string): (r: Result<seq<ShortenedData>, Error>)
    ensures r.Ok? && |r.value| == 1 && r.value[0] == Blank
  {
    Ok([Blank])
  }

  /** `DeleteByUserIDAndShort` is a stub: it always fails and changes nothing. */
  function DeleteByUserIDAndShort(s: FileStorage, userID: string, shortURL: string): (r: (FileStorage, Option<Error>))
    ensures r.0 == s && r.1.Some?
    ensures Message(r.1.value) == "Error"
  {
    (s, Some(Failure("Error")))
  }

  /** `GetStatistic` is a stub: always nil. */
  function GetStatistic(s: FileStorage): (r: Option<Statistic>)
    ensures r.None?
  {
    None
  }

  // ----- replaying a written log -----

  /** The entries of `m` whose keys `order` lists. */
  function Restrict(m: map<string, ShortenedData>, order: seq<string>): map<string, ShortenedData> {
    map k | k in m && k in order :: m[k]
  }

  /** Replaying the log lines of some entries stores exactly those entries
      on top of what was already there. */
  lemma {:induction false} ReplayLog(c: Codec, m: map<string, ShortenedData>, order: seq<string>,
                                     acc: MemoryStorage.InMemoryStorage<ShortenedData>)
    requires ValidCodec(c)
    requires KeyedByShortURL(m)
    requires forall i :: 0 <= i < |order| ==> order[i] in m
    ensures Replay(c, LogLines(c, m, order), acc) == Ok(MemoryStorage.InMemoryStorage(acc.data + Restrict(m, order)))
    decreases |order|
  {
    var ls := LogLines(c, m, order);
    if |order| == 0 {
      assert Restrict(m, order) == map[];
      assert acc.data + map[] == acc.data;
    } else {
      var k := order[0];
      var d := m[k];
      assert c.unmarshal(ls[0]) == Some(d);
      var acc' := MemoryStorage.Store(acc, k, d).0;
      assert ls[1..] == LogLines(c, m, order[1..]);
      assert Replay(c, ls, acc) == Replay(c, ls[1..], acc');
      ReplayLog(c, m, order[1..], acc');
      RestrictStep(acc.data, m, order);
    }
  }

  lemma RestrictStep(acc: map<string, ShortenedData>, m: map<string, ShortenedData>, order: seq<string>)
    requires |order| > 0 && order[0] in m
    ensures acc[order[0] := m[order[0]]] + Restrict(m, order[1..]) == acc + Restrict(m, order)
  {
    var k := order[0];
    forall x | x in order ensures x == k || x in order[1..] {
      var i :| 0 <= i < |order| && order[i] == x;
      if i > 0 {
        assert order[1..][i - 1] == x;
      }
    }
    var lhs, rhs := acc[k := m[k]] + Restrict(m, order[1..]), acc + Restrict(m, order);
    assert lhs.Keys == rhs.Keys;
    assert forall x :: x in lhs ==> lhs[x] == rhs[x];
  }

  /** A list without repetitions has as many elements as its set. */
  lemma {:induction false} DistinctCard(order: seq<string>)
    requires forall i, j :: 0 <= i < j < |order| ==> order[i] != order[j]
    ensures |set k | k in order| == |order|
    decreases |order|
  {
    if |order| > 0 {
      DistinctCard(order[1..]);
      var tail := set k | k in order[1..];
      assert (set k | k in order) == tail + {order[0]};
      assert order[0] !in tail;
    } else {
      assert (set k | k in order) == {};
    }
  }

  /** An enumeration of a map's keys is as long as the map. */
  lemma EnumerationLength(order: seq<string>, keys: set<string>)
    requires Enumerates(order, keys)
    ensures |order| == |keys|
  {
    DistinctCard(order);
    assert (set k | k in order) == keys;
  }

  /** Restarting on a file that holds exactly the log of a store rebuilds that store. */
  lemma ReloadLog(c: Codec, s: FileStorage, order: seq<string>)
    requires ValidCodec(c)
    requires KeyedByShortURL(s.mem.data)
    requires Enumerates(order, s.mem.data.Keys)
    ensures NewFileStorage(c, s.path, Contents(LogText(c, s.mem.data, order))) == Ok(s)
  {
    var ls := LogLines(c, s.mem.data, order);
    LinesOfJoin(ls);
    ReplayLog(c, s.mem.data, order, MemoryStorage.New());
    RestrictAll(s.mem.data, order);
  }

  /** Restricting a map to an enumeration of its keys, on top of nothing, gives the map. */
  lemma RestrictAll(m: map<string, ShortenedData>, order: seq<string>)
    requires Enumerates(order, m.Keys)
    ensures map[] + Restrict(m, order) == m
  {
    assert Restrict(m, order).Keys == m.Keys;
  }

  /** File round trip for the truncating rewrite: after a successful
      `SaveTruncating`, a restart on the same file rebuilds the same store,
      whatever the file held before. */
  lemma SaveTruncatingRoundTrip(c: Codec, s: FileStorage, order: seq<string>, disk: Disk)
    requires ValidCodec(c)
    requires KeyedByShortURL(s.mem.data)
    requires Enumerates(order, s.mem.data.Keys)
    requires !disk.Denied?
    ensures NewFileStorage(c, s.path, SaveTruncating(c, s, order, disk).0) == Ok(s)
  {
    ReloadLog(c, s, order);
  }

  /** `Save` as written writes one line per map entry, but a previous file
      longer than the new log keeps its tail, and the scanner then finds more
      lines than the map has entries: a restart replays a stale fragment. */
  lemma SaveLeavesStaleLines(c: Codec, s: FileStorage, order: seq<string>, prior: seq<byte>)
    requires ValidCodec(c)
    requires Enumerates(order, s.mem.data.Keys)
    requires |LogText(c, s.mem.data, order)| < |prior|
    ensures var text := Save(c, s, order, Contents(prior)).0.text;
            Lines(text) == LogLines(c, s.mem.data, order) + Lines(prior[|LogText(c, s.mem.data, order)|..])
    ensures |Lines(Save(c, s, order, Contents(prior)).0.text)| > |s.mem.data|
  {
    var ls := LogLines(c, s.mem.data, order);
    var tail := prior[|Join(ls)|..];
    LinesOfJoinThen(ls, tail);
    LinesOfNonEmpty(tail);
    EnumerationLength(order, s.mem.data.Keys);
  }

  /** When the new log is at least as long as the previous file, `Save` as
      written does replace it, and a restart rebuilds the store. */
  lemma SaveRoundTripWhenNotShorter(c: Codec, s: FileStorage, order: seq<string>, disk: Disk)
    requires ValidCodec(c)
    requires KeyedByShortURL(s.mem.data)
    requires Enumerates(order, s.mem.data.Keys)
    requires !disk.Denied?
    requires |PriorText(disk)| <= |LogText(c, s.mem.data, order)|
    ensures NewFileStorage(c, s.path, Save(c, s, order, disk).0) == Ok(s)
  {
    ReloadLog(c, s, order);
  }

  /** Replaying a text made of two parts binds the first part's records,
      then the second's over them. */
  lemma {:induction false} BindingsAppend(c: Codec, a: seq<seq<byte>>, b: seq<seq<byte>>)
    ensures Bindings(c, a + b) == Bindings(c, a) + Bindings(c, b)
    decreases |a|
  {
    if |a| == 0 {
      assert a + b == b;
      UnionLaws(Bindings(c, b), map[], map[]);
    } else {
      var head := LineBinding(c, a[0]);
      assert (a + b)[0] == a[0];
      assert (a + b)[1..] == a[1..] + b;
      assert Bindings(c, a + b) == head + Bindings(c, a[1..] + b);
      BindingsAppend(c, a[1..], b);
      UnionLaws(head, Bindings(c, a[1..]), Bindings(c, b));
    }
  }

  /** All lines of two parts decode exactly when all lines of each part do. */
  lemma AllDecodeAppend(c: Codec, a: seq<seq<byte>>, b: seq<seq<byte>>)
    ensures AllDecode(c, a + b) <==> AllDecode(c, a) && AllDecode(c, b)
  {
    if AllDecode(c, a + b) {
      forall i | 0 <= i < |b| ensures c.unmarshal(b[i]).Some? {
        assert b[i] == (a + b)[|a| + i];
      }
      forall i | 0 <= i < |a| ensures c.unmarshal(a[i]).Some? {
        assert a[i] == (a + b)[i];
      }
    }
  }

  /** The log of a store replays to that store's map. */
  lemma LogBindings(c: Codec, s: FileStorage, order: seq<string>)
    requires ValidCodec(c)
    requires KeyedByShortURL(s.mem.data)
    requires Enumerates(order, s.mem.data.Keys)
    ensures AllDecode(c, LogLines(c, s.mem.data, order))
    ensures Bindings(c, LogLines(c, s.mem.data, order)) == s.mem.data
  {
    var ls := LogLines(c, s.mem.data, order);
    var r := Replay(c, ls, MemoryStorage.New());
    ReplayLog(c, s.mem.data, order, MemoryStorage.New());
    assert r.value.data == map[] + Restrict(s.mem.data, order);
    assert r.value.data == map[] + Bindings(c, ls);
    RestrictAll(s.mem.data, order);
    UnionLaws(Bindings(c, ls), map[], map[]);
  }

  /** As written, a restart after a rewrite shorter than the old file loads
      the current map with the records of the stale tail bound over it: the
      load fails when a stale line does not decode, and a stale line that
      does decode brings back its old record under its code. */
  lemma SaveThenReload(c: Codec, s: FileStorage, order: seq<string>, prior: seq<byte>)
    requires ValidCodec(c)
    requires KeyedByShortURL(s.mem.data)
    requires Enumerates(order, s.mem.data.Keys)
    requires |LogText(c, s.mem.data, order)| < |prior|
    ensures var stale := Lines(prior[|LogText(c, s.mem.data, order)|..]);
            var reload := NewFileStorage(c, s.path, Save(c, s, order, Contents(prior)).0);
            && (reload.Ok? <==> AllDecode(c, stale))
            && (reload.Ok? ==> reload.value.mem.data == s.mem.data + Bindings(c, stale))
  {
    var ls := LogLines(c, s.mem.data, order);
    var stale := Lines(prior[|LogText(c, s.mem.data, order)|..]);
    SaveLeavesStaleLines(c, s, order, prior);
    LogBindings(c, s, order);
    AllDecodeAppend(c, ls, stale);
    BindingsAppend(c, ls, stale);
  }

  /** As written, `Store` followed by a restart on the rewritten file
      rebuilds the new map and finds the stored record, provided the new log
      is no shorter than the file it overwrote. */
  lemma StoreSurvivesRestart(c: Codec, s: FileStorage, data: ShortenedData, order: seq<string>, disk: Disk)
    requires ValidCodec(c)
    requires KeyedByShortURL(s.mem.data)
    requires Enumerates(order, s.mem.data.Keys + {data.shortURL})
    requires !disk.Denied?
    requires |PriorText(disk)| <= |LogText(c, Bind(s, data).mem.data, order)|
    ensures var step := Store(c, s, data, order, disk);
            NewFileStorage(c, s.path, step.disk) == Ok(step.storage)
            && Get(step.storage, data.shortURL) == Ok(data)
  {
    var step := Store(c, s, data, order, disk);
    SaveRoundTripWhenNotShorter(c, step.storage, order, disk);
  }

  /** As written, when `Store` leaves a shorter log than the file held, a
      restart loads the new map overlaid with whatever the stale tail binds,
      or fails on a stale fragment that does not decode. */
  lemma StoreLeavesStaleRecords(c: Codec, s: FileStorage, data: ShortenedData, order: seq<string>, prior: seq<byte>)
    requires ValidCodec(c)
    requires KeyedByShortURL(s.mem.data)
    requires Enumerates(order, s.mem.data.Keys + {data.shortURL})
    requires |LogText(c, Bind(s, data).mem.data, order)| < |prior|
    ensures var step := Store(c, s, data, order, Contents(prior));
            var stale := Lines(prior[|LogText(c, step.storage.mem.data, order)|..]);
            var reload := NewFileStorage(c, s.path, step.disk);
            && (reload.Ok? <==> AllDecode(c, stale))
            && (reload.Ok? ==> reload.value.mem.data == step.storage.mem.data + Bindings(c, stale))
  {
    SaveThenReload(c, Bind(s, data), order, prior);
  }

  /** As written, a restart after `Close` rebuilds the store when the log is
      no shorter than the file it overwrote; otherwise it loads the store
      overlaid with whatever the stale tail binds, or fails on a stale
      fragment that does not decode. */
  lemma CloseThenReload(c: Codec, s: FileStorage, order: seq<string>, prior: seq<byte>)
    requires ValidCodec(c)
    requires KeyedByShortURL(s.mem.data)
    requires Enumerates(order, s.mem.data.Keys)
    ensures var log := LogText(c, s.mem.data, order);
            var reload := NewFileStorage(c, s.path, Close(c, s, order, Contents(prior)).0);
            && (|prior| <= |log| ==> reload == Ok(s))
            && (|log| < |prior| ==> (reload.Ok? <==> AllDecode(c, Lines(prior[|log|..]))))
            && (|log| < |prior| && reload.Ok? ==>
                  reload.value.mem.data == s.mem.data + Bindings(c, Lines(prior[|log|..])))
  {
    if |prior| <= |LogText(c, s.mem.data, order)| {
      SaveRoundTripWhenNotShorter(c, s, order, Contents(prior));
    } else {
      SaveThenReload(c, s, order, prior);
    }
  }

  /** With the truncating rewrite, `Store` followed by a restart always
      rebuilds the new map and finds the stored record. */
  lemma StoreTruncatingSurvivesRestart(c: Codec, s: FileStorage, data: ShortenedData, order: seq<string>,
                                       disk: Disk)
    requires ValidCodec(c)
    requires KeyedByShortURL(s.mem.data)
    requires Enumerates(order, s.mem.data.Keys + {data.shortURL})
    requires !disk.Denied?
    ensures var step := StoreTruncating(c, s, data, order, disk);
            NewFileStorage(c, s.path, step.disk) == Ok(step.storage)
            && Get(step.storage, data.shortURL) == Ok(data)
  {
    var step := StoreTruncating(c, s, data, order, disk);
    SaveTruncatingRoundTrip(c, step.storage, order, disk);
  }
}
