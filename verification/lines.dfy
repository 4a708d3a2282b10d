/** The file backend's log as bytes: how `bufio.Scanner` with its default
    `ScanLines` splits a file into lines, how the backend writes one line per
    record, and what writing at offset 0 of a file opened without `O_TRUNC`
    leaves behind. Lengths and offsets are counted in bytes, as the file
    system counts them. */
module LineLog {
  import opened Bytes

  /** The line feed that ends a line, and the carriage return `ScanLines`
      strips before it. */
  const LF: byte := 10
  const CR: byte := 13

  /** Position of the first line feed in `s`, or |s| when there is none. */
  function NewlineIndex(s: seq<byte>): (i: nat)
    ensures i <= |s|
    ensures forall j :: 0 <= j < i ==> s[j] != LF
    ensures i < |s| ==> s[i] == LF
    decreases |s|
  {
    if |s| == 0 || s[0] == LF then 0 else 1 + NewlineIndex(s[1..])
  }

  /** `ScanLines` strips one carriage return before each line end. */
  function DropCR(line: seq<byte>): seq<byte> {
    if |line| > 0 && line[|line| - 1] == CR then line[..|line| - 1] else line
  }

  /** The tokens `ScanLines` yields: the bytes between line ends with one
      trailing carriage return removed, plus a final unterminated segment
      when it is not empty. An empty line in the middle is yielded as an
      empty token. */
  function Lines(s: seq<byte>): seq<seq<byte>>
    decreases |s|
  {
    if |s| == 0 then []
    else
      var i := NewlineIndex(s);
      if i == |s| then [DropCR(s)]
      else [DropCR(s[..i])] + Lines(s[i + 1..])
  }

  /** A line the backend can write and read back: no line end inside it and
      no carriage return the scanner would strip. */
  predicate IsLine(l: seq<byte>) {
    LF !in l && (|l| == 0 || l[|l| - 1] != CR)
  }

  /** The bytes of a sequence of lines, each terminated by a line feed. */
  function Join(ls: seq<seq<byte>>): (s: seq<byte>)
    ensures |ls| == 0 <==> |s| == 0
    ensures |s| > 0 ==> s[|s| - 1] == LF
  {
    if |ls| == 0 then [] else ls[0] + [LF] + Join(ls[1..])
  }

  lemma NewlineAfter(a: seq<byte>, b: seq<byte>)
    requires LF !in a
    ensures NewlineIndex(a + [LF] + b) == |a|
  {
    var s := a + [LF] + b;
    assert s[|a|] == LF;
    assert forall j :: 0 <= j < |a| ==> s[j] == a[j];
  }

  /** One written line in front of any text scans to that line first. */
  lemma LinesCons(a: seq<byte>, rest: seq<byte>)
    requires IsLine(a)
    ensures Lines(a + [LF] + rest) == [a] + Lines(rest)
  {
    var s := a + [LF] + rest;
    NewlineAfter(a, rest);
    assert s[..|a|] == a;
    assert s[|a| + 1..] == rest;
  }

  lemma JoinThen(ls: seq<seq<byte>>, t: seq<byte>)
    requires |ls| > 0
    ensures Join(ls) + t == ls[0] + [LF] + (Join(ls[1..]) + t)
  {
  }

  /** Scanning the written lines followed by any text yields those lines
      followed by the lines of that text. */
  lemma {:induction false} LinesOfJoinThen(ls: seq<seq<byte>>, t: seq<byte>)
    requires forall i :: 0 <= i < |ls| ==> IsLine(ls[i])
    ensures Lines(Join(ls) + t) == ls + Lines(t)
    decreases |ls|
  {
    if |ls| > 0 {
      LinesOfJoinThen(ls[1..], t);
      LinesOfJoinStep(ls, t);
    } else {
      assert Join(ls) + t == t;
    }
  }

  lemma LinesOfJoinStep(ls: seq<seq<byte>>, t: seq<byte>)
    requires |ls| > 0 && IsLine(ls[0])
    requires Lines(Join(ls[1..]) + t) == ls[1..] + Lines(t)
    ensures Lines(Join(ls) + t) == ls + Lines(t)
  {
    var rest := Join(ls[1..]) + t;
    var head := Lines(Join(ls) + t);
    assert head == [ls[0]] + Lines(rest) by {
      JoinThen(ls, t);
      LinesCons(ls[0], rest);
    }
    SeqCons(ls, Lines(t));
  }

  lemma SeqCons<T>(s: seq<T>, u: seq<T>)
    requires |s| > 0
    ensures [s[0]] + (s[1..] + u) == s + u
  {
    assert s == [s[0]] + s[1..];
  }

  /** Scanning the written lines yields exactly those lines. */
  lemma LinesOfJoin(ls: seq<seq<byte>>)
    requires forall i :: 0 <= i < |ls| ==> IsLine(ls[i])
    ensures Lines(Join(ls)) == ls
  {
    LinesOfJoinThen(ls, []);
    assert Join(ls) + [] == Join(ls);
  }

  /** Non-empty contents always scan to at least one token. */
  lemma LinesOfNonEmpty(t: seq<byte>)
    requires |t| > 0
    ensures |Lines(t)| >= 1
  {
  }

  /** Writing `content` from offset 0 into a file that held `prior`, without
      truncating it: the bytes of `prior` beyond the new content survive. */
  function Overwrite(prior: seq<byte>, content: seq<byte>): (r: seq<byte>)
    ensures |r| == if |content| < |prior| then |prior| else |content|
    ensures r[..|content|] == content
    ensures |content| < |prior| ==> r[|content|..] == prior[|content|..]
  {
    if |content| < |prior| then content + prior[|content|..] else content
  }

  /** Lengths are compared in bytes. The UTF-8 log "éé\n" (five bytes)
      written over the five-byte file "abcd\n" replaces it entirely. The log
      "abcde\n" (six bytes) written over "éééé\n" (nine bytes) leaves the
      last three bytes behind, and the scanner finds them as a stale line. */
  lemma OverwriteCountsBytes()
    ensures var prior: seq<byte> := [0x61, 0x62, 0x63, 0x64, LF];
            var log: seq<byte> := [0xC3, 0xA9, 0xC3, 0xA9, LF];
            Overwrite(prior, log) == log && Lines(Overwrite(prior, log)) == [log[..4]]
    ensures var prior: seq<byte> := [0xC3, 0xA9, 0xC3, 0xA9, 0xC3, 0xA9, 0xC3, 0xA9, LF];
            var log: seq<byte> := [0x61, 0x62, 0x63, 0x64, 0x65, LF];
            Lines(Overwrite(prior, log)) == [log[..5], [0xC3, 0xA9]]
  {
    var log: seq<byte> := [0xC3, 0xA9, 0xC3, 0xA9, LF];
    LinesOfJoin([log[..4]]);
    assert Join([log[..4]]) == log;
    var log2: seq<byte> := [0x61, 0x62, 0x63, 0x64, 0x65, LF];
    var stale: seq<byte> := [0xC3, 0xA9, LF];
    var prior2: seq<byte> := [0xC3, 0xA9, 0xC3, 0xA9, 0xC3, 0xA9, 0xC3, 0xA9, LF];
    assert Join([log2[..5]]) == log2;
    assert Overwrite(prior2, log2) == Join([log2[..5]]) + stale;
    LinesOfJoinThen([log2[..5]], stale);
    LinesOfJoin([stale[..2]]);
    assert Join([stale[..2]]) == stale;
    assert stale[..2] == [0xC3, 0xA9];
    assert Lines(Overwrite(prior2, log2)) == [log2[..5]] + [stale[..2]];
  }
}
