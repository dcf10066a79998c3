/** The play time journal of src/data/context/SessionTracker.cpp: one line for each session, of which the
    last one is overwritten in place while its session goes on. */
module SessionTracker {
  import opened Basics
  import opened StandardAlgorithms
  import opened JournalText

  /** One session of a game: when it began and how many seconds it lasted. */
  datatype Record = Record(gameId: nat, start: nat, length: nat)

  // ----- Lines of the journal

  predicate IsHexDigit(c: char) {
    IsDigit(c) || 'a' <= c <= 'f'
  }

  ghost predicate IsMd5(md5: string -> string) {
    forall s :: |md5(s)| == 32 && IsHexDigit(md5(s)[0]) && IsHexDigit(md5(s)[31])
  }

  function Payload(r: Record): string {
    (Decimal(r.gameId) + ":") + (Decimal(r.start) + ":") + (Decimal(r.length) + ":")
  }

  /** A line: the numbers, then the first and the last character of their checksum. */
  function Line(md5: string -> string, r: Record): string
    requires IsMd5(md5)
  {
    Payload(r) + [md5(Payload(r))[0], md5(Payload(r))[31]]
  }

  /** A number and the colon behind it. */
  function ReadField(s: string, at: nat): (r: Option<(nat, nat)>)
    requires at <= |s|
    ensures r.Some? ==> r.value.1 <= |s|
  {
    var (n, end) := ReadNumber(s, at);
    var next := Consume(s, end, ':');
    if next.Some? then Some((n, next.value)) else None
  }

  /** What loading makes of a line: nothing unless its form and its checksum are right. */
  function ParseLine(md5: string -> string, s: string): Option<Record>
    requires IsMd5(md5)
  {
    var id := ReadField(s, 0);
    if id.None? then None
    else
      var start := ReadField(s, id.value.1);
      if start.None? then None
      else
        var length := ReadField(s, start.value.1);
        if length.None? then None
        else
          var sum := md5(s[..length.value.1]);
          var first := Consume(s, length.value.1, sum[0]);
          if first.None? || Consume(s, first.value, sum[31]).None? then None
          else Some(Record(id.value.0, start.value.0, length.value.0))
  }

  /** What 32-bit numbers can hold of a session. */
  function Clipped(r: Record): Record {
    Record(Clip(r.gameId), Clip(r.start), Clip(r.length))
  }

  lemma FieldIsRead(before: string, n: nat, after: string, s: string)
    requires s == before + (Decimal(n) + ":") + after
    ensures ReadField(s, |before|) == Some((Clip(n), |before + (Decimal(n) + ":")|))
  {
    var at, end := |before|, |before| + |Decimal(n)|;
    assert s[at..end] == Decimal(n) && s[end] == ':';
    ReadPrinted(s, at, n);
  }

  lemma FieldsInLine(a: string, b: string, c: string, marks: string)
    ensures var s := a + b + c + marks;
            && s == "" + a + (b + c + marks) && s == a + b + (c + marks) && s == (a + b) + c + marks
            && s[..|a + b + c|] == a + b + c && s[|a + b + c|..] == marks
  {
  }

  lemma LineIsRead(md5: string -> string, r: Record)
    requires IsMd5(md5)
    ensures ParseLine(md5, Line(md5, r)) == Some(Clipped(r))
  {
    var s, sum := Line(md5, r), md5(Payload(r));
    var a, b, c := Decimal(r.gameId) + ":", Decimal(r.start) + ":", Decimal(r.length) + ":";
    var marks := [sum[0], sum[31]];
    FieldsInLine(a, b, c, marks);
    FieldIsRead("", r.gameId, b + c + marks, s);
    FieldIsRead(a, r.start, c + marks, s);
    FieldIsRead(a + b, r.length, marks, s);
  }

  /** A session is read back as it was written exactly when its numbers fit in 32 bits. */
  lemma LineRoundTrip(md5: string -> string, r: Record)
    requires IsMd5(md5)
    ensures ParseLine(md5, Line(md5, r)) == Some(r) <==>
            r.gameId <= MAX_NUMBER && r.start <= MAX_NUMBER && r.length <= MAX_NUMBER
  {
    LineIsRead(md5, r);
  }

  /** A line with its line end. */
  function FullLine(md5: string -> string, r: Record): string
    requires IsMd5(md5)
  {
    Line(md5, r) + "\r\n"
  }

  /** The line of a session: game, start and length, each with a colon, and two characters of the checksum. */
  lemma LineOfSession(md5: string -> string)
    requires IsMd5(md5)
    ensures var payload := "7:17:120:";
            FullLine(md5, Record(7, 17, 120)) == payload + [md5(payload)[0], md5(payload)[31]] + "\r\n"
  {
    assert Decimal(7) == "7";
    assert Decimal(17) == "17" && Decimal(120) == "120" by {
      assert Decimal(1) == "1" && Decimal(12) == "12";
    }
    assert Payload(Record(7, 17, 120)) == "7:17:120:";
  }

  // ----- The whole journal

  /** The sessions that are over, the latest one last. */
  datatype History = Nothing | Then(earlier: History, last: Record)

  /** The lines of some sessions. */
  function Text(md5: string -> string, h: History): string
    requires IsMd5(md5)
  {
    match h
    case Nothing => ""
    case Then(earlier, last) => Text(md5, earlier) + FullLine(md5, last)
  }

  function Taken(r: Option<Record>): seq<Record> {
    if r.Some? then [r.value] else []
  }

  /** The sessions that loading takes from some lines. */
  function Parsed(md5: string -> string, lines: seq<string>): seq<Record>
    requires IsMd5(md5)
  {
    if lines == [] then []
    else
      Parsed(md5, lines[..|lines| - 1]) + Taken(ParseLine(md5, lines[|lines| - 1]))
  }

  lemma ParsedNext(md5: string -> string, lines: seq<string>, n: nat)
    requires IsMd5(md5) && n < |lines|
    ensures Parsed(md5, lines[..n + 1]) == Parsed(md5, lines[..n]) + Taken(ParseLine(md5, lines[n]))
  {
    assert lines[..n + 1][..n] == lines[..n];
  }

  function ParseText(md5: string -> string, s: string): seq<Record>
    requires IsMd5(md5)
  {
    Parsed(md5, Lines(s))
  }

  function ClippedAll(h: History): seq<Record> {
    match h
    case Nothing => []
    case Then(earlier, last) => ClippedAll(earlier) + [Clipped(last)]
  }

  lemma LineHasNoLineEnd(md5: string -> string, r: Record)
    requires IsMd5(md5)
    ensures '\n' !in Line(md5, r)
  {
    assert IsHexDigit(md5(Payload(r))[0]) && IsHexDigit(md5(Payload(r))[31]);
  }

  lemma EndedLine(line: string)
    requires '\n' !in line
    ensures Lines(line + "\r\n") == [line]
  {
    var full := line + "\r";
    assert line + "\r\n" == full + "\n" + "";
    FirstLine(full, "");
    assert TrimReturn(full) == line by {
      assert full[..|full| - 1] == line;
    }
    assert Lines("") == [];
  }

  lemma ParsedLast(md5: string -> string, lines: seq<string>, line: string)
    requires IsMd5(md5)
    ensures Parsed(md5, lines + [line]) == Parsed(md5, lines) + Taken(ParseLine(md5, line))
  {
    assert (lines + [line])[..|lines|] == lines;
  }

  lemma ParsedOneMore(md5: string -> string, lines: seq<string>, r: Record)
    requires IsMd5(md5)
    ensures Parsed(md5, lines + [Line(md5, r)]) == Parsed(md5, lines) + [Clipped(r)]
  {
    LineIsRead(md5, r);
    ParsedLast(md5, lines, Line(md5, r));
  }

  /** A line written at the end of complete lines is read as one session more. */
  lemma AppendedIsRead(md5: string -> string, s: string, r: Record)
    requires IsMd5(md5) && EndsLine(s)
    ensures ParseText(md5, s + FullLine(md5, r)) == ParseText(md5, s) + [Clipped(r)]
  {
    LinesJoin(s, FullLine(md5, r));
    LineHasNoLineEnd(md5, r);
    EndedLine(Line(md5, r));
    ParsedOneMore(md5, Lines(s), r);
  }

  /** Behind an unfinished line a session is written on that line, and is lost unless the whole passes the
      checks of a line. */
  lemma UnfinishedLineSwallows(md5: string -> string, s: string, part: string, r: Record)
    requires IsMd5(md5) && EndsLine(s) && '\n' !in part
    ensures ParseText(md5, s + (part + FullLine(md5, r))) ==
            ParseText(md5, s) + Taken(ParseLine(md5, part + Line(md5, r)))
  {
    LineHasNoLineEnd(md5, r);
    LinesJoin(s, part + FullLine(md5, r));
    Regroup(part, Line(md5, r), "\r\n");
    EndedLine(part + Line(md5, r));
    ParsedLast(md5, Lines(s), part + Line(md5, r));
  }

  /** Reading a journal to which sessions were written gives its old sessions and then those. */
  lemma {:induction false} TextIsRead(md5: string -> string, s: string, h: History)
    requires IsMd5(md5) && EndsLine(s)
    ensures EndsLine(s + Text(md5, h))
    ensures ParseText(md5, s + Text(md5, h)) == ParseText(md5, s) + ClippedAll(h)
  {
    match h
    case Nothing =>
      assert s + "" == s;
    case Then(earlier, last) =>
      TextIsRead(md5, s, earlier);
      Regroup(s, Text(md5, earlier), FullLine(md5, last));
      AppendedIsRead(md5, s + Text(md5, earlier), last);
      Regroup(ParseText(md5, s), ClippedAll(earlier), [Clipped(last)]);
  }

  function First(h: History): Record
    requires h.Then?
  {
    if h.earlier.Then? then First(h.earlier) else h.last
  }

  /** All sessions but the first. */
  function Rest(h: History): History {
    if h.Then? && h.earlier.Then? then Then(Rest(h.earlier), h.last) else Nothing
  }

  lemma NoTextBefore(s: string, part: string, line: string)
    ensures s + part + ("" + line) == s + (part + line)
  {
  }

  /** Reading a journal whose last line was unfinished before sessions were written: the first of them is
      read as the end of that line, the others as they are. */
  lemma {:induction false} UnfinishedTextIsRead(md5: string -> string, s: string, part: string, h: History)
    requires IsMd5(md5) && EndsLine(s) && '\n' !in part && h.Then?
    ensures EndsLine(s + part + Text(md5, h))
    ensures ParseText(md5, s + part + Text(md5, h)) ==
            ParseText(md5, s) + Taken(ParseLine(md5, part + Line(md5, First(h)))) + ClippedAll(Rest(h))
  {
    var text := Text(md5, h.earlier);
    Regroup(s + part, text, FullLine(md5, h.last));
    if h.earlier.Then? {
      var read := ParseText(md5, s) + Taken(ParseLine(md5, part + Line(md5, First(h))));
      UnfinishedTextIsRead(md5, s, part, h.earlier);
      AppendedIsRead(md5, s + part + text, h.last);
      Regroup(read, ClippedAll(Rest(h.earlier)), [Clipped(h.last)]);
    } else {
      NoTextBefore(s, part, FullLine(md5, h.last));
      UnfinishedLineSwallows(md5, s, part, h.last);
    }
  }

  /** A line for a longer session covers one for the same session earlier on. */
  lemma LongerCovers(md5: string -> string, id: nat, start: nat, m: nat, n: nat)
    requires IsMd5(md5) && m <= n
    ensures |FullLine(md5, Record(id, start, m))| <= |FullLine(md5, Record(id, start, n))|
  {
    LargerIsNotShorter(m, n);
  }

  // ----- Play times

  /** The total play time of a game and the start of its latest session. */
  datatype Stat = Stat(total: nat, last: nat)

  function Played(m: map<int, Stat>, r: Record): map<int, Stat> {
    m[r.gameId := Stat(r.length + (if r.gameId in m then m[r.gameId].total else 0), r.start)]
  }

  function Totals(records: seq<Record>): map<int, Stat> {
    if records == [] then map[] else Played(Totals(records[..|records| - 1]), records[|records| - 1])
  }

  lemma TotalsOneMore(records: seq<Record>, r: Record)
    ensures Totals(records + [r]) == Played(Totals(records), r)
  {
    assert (records + [r])[..|records|] == records;
  }

  /** The totals once some sessions have been played after others. */
  function TotalsAfter(m: map<int, Stat>, h: History): map<int, Stat> {
    match h
    case Nothing => m
    case Then(earlier, last) => Played(TotalsAfter(m, earlier), last)
  }

  /** The time a game was played, and when its latest session began. */
  function PlayTime(h: History, k: int): nat {
    match h
    case Nothing => 0
    case Then(earlier, last) => PlayTime(earlier, k) + (if last.gameId == k then last.length else 0)
  }

  function LatestStart(h: History, k: int): Option<nat> {
    match h
    case Nothing => None
    case Then(earlier, last) => if last.gameId == k then Some(last.start) else LatestStart(earlier, k)
  }

  /** The totals grow by the time played, and hold the latest start. */
  lemma {:induction false} TotalsGrow(m: map<int, Stat>, h: History, k: int)
    ensures k in TotalsAfter(m, h) <==> k in m || LatestStart(h, k).Some?
    ensures k in TotalsAfter(m, h) ==>
              && TotalsAfter(m, h)[k].total == (if k in m then m[k].total else 0) + PlayTime(h, k)
              && TotalsAfter(m, h)[k].last == if LatestStart(h, k).Some? then LatestStart(h, k).value else m[k].last
    ensures k !in TotalsAfter(m, h) ==> PlayTime(h, k) == 0
  {
    match h
    case Nothing =>
    case Then(earlier, last) =>
      TotalsGrow(m, earlier, k);
  }

  /** Sessions in a list as a history. */
  function InTurn(records: seq<Record>): History {
    if records == [] then Nothing else Then(InTurn(records[..|records| - 1]), records[|records| - 1])
  }

  /** Totals over a list are those after its sessions. */
  lemma {:induction false} TotalsInTurn(records: seq<Record>)
    ensures Totals(records) == TotalsAfter(map[], InTurn(records))
  {
    if records != [] {
      TotalsInTurn(records[..|records| - 1]);
    }
  }

  /** For each game the total is the sum of the lengths of its sessions, and the last start that of the last. */
  lemma TotalsAreSums(records: seq<Record>, k: int)
    ensures k in Totals(records) <==> LatestStart(InTurn(records), k).Some?
    ensures k in Totals(records) ==>
              && Totals(records)[k].total == PlayTime(InTurn(records), k)
              && Totals(records)[k].last == LatestStart(InTurn(records), k).value
    ensures k !in Totals(records) ==> PlayTime(InTurn(records), k) == 0
  {
    TotalsInTurn(records);
    TotalsGrow(map[], InTurn(records), k);
  }

  // ----- What 32 bits keep of the play times

  ghost predicate IdsFit(h: History) {
    h.Then? ==> IdsFit(h.earlier) && h.last.gameId <= MAX_NUMBER
  }

  /** All sessions of a game have a length that fits in 32 bits. */
  ghost predicate LengthsFit(h: History, k: int) {
    h.Then? ==> LengthsFit(h.earlier, k) && (h.last.gameId == k ==> h.last.length <= MAX_NUMBER)
  }

  ghost predicate LatestFits(h: History, k: int) {
    LatestStart(h, k).Some? ==> LatestStart(h, k).value <= MAX_NUMBER
  }

  /** The play time read for a game is never more than what was played, and is that exactly when all lengths
      fit; the start read for it is the true one exactly when the latest one fits. */
  lemma {:induction false} GameIsRead(records: seq<Record>, h: History, k: int)
    requires IdsFit(h)
    ensures var read, kept := Totals(records + ClippedAll(h)), TotalsAfter(Totals(records), h);
            if k !in kept then k !in read && LengthsFit(h, k) && LatestStart(h, k).None?
            else
              && k in read && read[k].total <= kept[k].total
              && (read[k].total == kept[k].total <==> LengthsFit(h, k))
              && (read[k].last == kept[k].last <==> LatestFits(h, k))
  {
    match h
    case Nothing =>
      assert records + [] == records;
    case Then(earlier, last) =>
      GameIsRead(records, earlier, k);
      Regroup(records, ClippedAll(earlier), [Clipped(last)]);
      TotalsOneMore(records + ClippedAll(earlier), Clipped(last));
  }

  /** Adding what is read gives the totals in memory exactly when for each game all lengths and the latest
      start fit. */
  lemma TotalsOfAll(records: seq<Record>, h: History)
    requires IdsFit(h)
    ensures Totals(records + ClippedAll(h)) == TotalsAfter(Totals(records), h)
       <==> forall k :: LengthsFit(h, k) && LatestFits(h, k)
  {
    var read, kept := Totals(records + ClippedAll(h)), TotalsAfter(Totals(records), h);
    if forall k :: LengthsFit(h, k) && LatestFits(h, k) {
      forall k ensures (k in read <==> k in kept) && (k in kept ==> read[k] == kept[k]) {
        GameIsRead(records, h, k);
      }
      assert read == kept;
    } else {
      var k :| !(LengthsFit(h, k) && LatestFits(h, k));
      GameIsRead(records, h, k);
    }
  }

  datatype GameStats = GameStats(gameId: int, totalPlayTime: nat, lastSessionStart: nat)

  ghost predicate HasGame(stats: seq<GameStats>, k: int) {
    exists i :: 0 <= i < |stats| && stats[i].gameId == k
  }

  ghost predicate OneEach(stats: seq<GameStats>) {
    forall i, j :: 0 <= i < j < |stats| ==> stats[i].gameId != stats[j].gameId
  }

  /** The list holds one entry for each game of `m`. */
  ghost predicate Holds(stats: seq<GameStats>, m: map<int, Stat>) {
    && OneEach(stats)
    && (forall i :: 0 <= i < |stats| ==>
                      stats[i].gameId in m
                      && m[stats[i].gameId] == Stat(stats[i].totalPlayTime, stats[i].lastSessionStart))
    && (forall k :: k in m ==> HasGame(stats, k))
  }

  /** A list holds the entries of one map only. */
  lemma HoldsOne(stats: seq<GameStats>, m: map<int, Stat>, n: map<int, Stat>)
    requires Holds(stats, m) && Holds(stats, n)
    ensures m == n
  {
    forall k ensures k in m <==> k in n {
      assert HasGame(stats, k) <==> k in m;
      assert HasGame(stats, k) <==> k in n;
    }
    forall k | k in m ensures m[k] == n[k] {
      assert HasGame(stats, k);
    }
  }

  /** Sorting keeps the entries. */
  lemma HoldsPermuted(stats: seq<GameStats>, sorted: seq<GameStats>, m: map<int, Stat>)
    requires Holds(stats, m) && multiset(sorted) == multiset(stats)
    ensures Holds(sorted, m)
  {
    forall i | 0 <= i < |sorted|
      ensures sorted[i].gameId in m && m[sorted[i].gameId] == Stat(sorted[i].totalPlayTime, sorted[i].lastSessionStart)
    {
      assert sorted[i] in multiset(stats);
    }
    forall i, j | 0 <= i < j < |sorted| ensures sorted[i].gameId != sorted[j].gameId {
      if sorted[i] == sorted[j] {
        OccursTwice(sorted, i, j);
        assert sorted[i] in multiset(stats);
        var k :| 0 <= k < |stats| && stats[k] == sorted[i];
        OccursOnce(stats, k);
        assert false;
      }
      assert m[sorted[i].gameId] == Stat(sorted[i].totalPlayTime, sorted[i].lastSessionStart);
    }
    forall k | k in m ensures HasGame(sorted, k) {
      assert HasGame(stats, k);
      var i :| 0 <= i < |stats| && stats[i].gameId == k;
      assert stats[i] in multiset(sorted);
    }
  }

  /** The sort order of the list: the game played last comes first. */
  predicate PlayedLater(a: GameStats, b: GameStats) {
    b.lastSessionStart < a.lastSessionStart
  }

  // ----- The tracker

  const TICKS_PER_SECOND := 1_000_000_000

  /** Overwrites a text from a position on. */
  function WriteAt(file: string, at: nat, s: string): string
    requires at <= |file|
  {
    file[..at] + s + (if at + |s| < |file| then file[at + |s|..] else "")
  }

  lemma WriteBehind(a: string, old': string, s: string)
    requires |old'| <= |s|
    ensures WriteAt(a + old', |a|, s) == a + s
  {
  }

  class SessionTracker {
    const md5: string -> string
    /** The contents of the journal; empty while there is none. */
    var file: string
    var gameStats: seq<GameStats>
    var currentGameId: nat
    /** When the session began, by the steady clock and by the calendar. */
    var tpSessionStart: nat
    var tSessionStart: nat
    var fileWritePosition: nat
    /** The journal as it was loaded and the sessions it held. */
    ghost const loaded: string
    ghost const before: seq<Record>
    /** The sessions ended since, and the length the current session's line has been given, if it has one. */
    ghost var ended: History
    ghost var pinged: Option<nat>
    /** The text of that line. */
    ghost var current: string
    /** The text of the sessions that are over, their totals, and the games that the list holds. */
    ghost var journal: string
    ghost var totals: map<int, Stat>
    ghost var listed: map<int, Stat>
    /** The latest reading of the steady clock. */
    ghost var clock: nat

    /** The line of the session going on, when it has lasted for some seconds. */
    ghost function CurrentLine(length: nat): string
      reads this`currentGameId, this`tSessionStart
      requires IsMd5(md5)
    {
      FullLine(md5, Record(currentGameId, tSessionStart, length))
    }

    /** The whole seconds of a session; the steady clock counts nanoseconds. */
    function Elapsed(upTime: nat): (seconds: nat)
      reads this`tpSessionStart
      requires tpSessionStart <= upTime
      ensures 1_000_000_000 * seconds <= upTime - tpSessionStart < 1_000_000_000 * (seconds + 1)
    {
      (upTime - tpSessionStart) / TICKS_PER_SECOND
    }

    /** The text and the totals of the sessions that are over. */
    ghost predicate Summed()
      reads this`ended, this`journal, this`totals
    {
      IsMd5(md5) && journal == loaded + Text(md5, ended) && totals == TotalsAfter(Totals(before), ended)
    }

    /** The journal holds the sessions that are over and the current line, and is written behind the former. */
    ghost predicate FileOk()
      reads this`journal, this`current, this`pinged, this`currentGameId, this`tSessionStart, this`file,
            this`fileWritePosition
    {
      && IsMd5(md5) && fileWritePosition == |journal|
      && file == (if pinged.Some? then journal + current else journal)
      && forall length :: pinged == Some(length) ==> current == CurrentLine(length)
    }

    /** The list holds the games of the sessions that are over, and the current one. */
    ghost predicate ListOk()
      reads this`totals, this`listed, this`gameStats, this`currentGameId, this`tSessionStart
    {
      && Holds(gameStats, listed)
      && listed == if currentGameId == 0 then totals else Played(totals, Record(currentGameId, tSessionStart, 0))
    }

    ghost predicate Valid()
      reads this
    {
      && Summed() && FileOk() && ListOk() && tpSessionStart <= clock
      && currentGameId <= MAX_NUMBER && IdsFit(ended)
      && (pinged.Some? ==> currentGameId != 0 && pinged.value <= Elapsed(clock))
    }

    /** A tracker for a user whose journal holds `file`. */
    constructor (md5: string -> string, file: string)
      requires IsMd5(md5)
      ensures Valid() && this.md5 == md5 && this.file == file && loaded == file && before == ParseText(md5, file)
      ensures ended == Nothing && currentGameId == 0 && clock == 0
    {
      this.md5, this.file := md5, file;
      gameStats, currentGameId, tpSessionStart, tSessionStart, fileWritePosition := [], 0, 0, 0, 0;
      loaded, before, ended, pinged, current, listed, clock := file, ParseText(md5, file), Nothing, None, "", map[], 0;
      journal, totals := file, TotalsAfter(Totals(ParseText(md5, file)), Nothing);
      new;
      NothingYet(md5, file);
      Load();
    }

    static lemma AppendHolds(stats: seq<GameStats>, m: map<int, Stat>, g: GameStats)
      requires Holds(stats, m) && !HasGame(stats, g.gameId)
      ensures g.gameId !in m
      ensures Holds(stats + [g], m[g.gameId := Stat(g.totalPlayTime, g.lastSessionStart)])
    {
      var r := stats + [g];
      assert r[|stats|] == g;
      forall k | k in m ensures HasGame(r, k) {
        assert HasGame(stats, k);
        var i :| 0 <= i < |stats| && stats[i].gameId == k;
        assert r[i].gameId == k;
      }
    }

    static lemma UpdateHolds(stats: seq<GameStats>, m: map<int, Stat>, i: nat, g: GameStats)
      requires Holds(stats, m) && i < |stats| && stats[i].gameId == g.gameId
      ensures Holds(stats[i := g], m[g.gameId := Stat(g.totalPlayTime, g.lastSessionStart)])
    {
      var r := stats[i := g];
      forall k | k in m ensures HasGame(r, k) {
        assert HasGame(stats, k);
        var j :| 0 <= j < |stats| && stats[j].gameId == k;
        assert r[j].gameId == k;
      }
    }

    /** Adds a session to the totals of its game. */
    method AddSession(gameId: nat, start: nat, length: nat)
      requires Holds(gameStats, listed)
      modifies this`gameStats, this`listed
      ensures Holds(gameStats, listed) && gameStats != []
      ensures listed == Played(old(listed), Record(gameId, start, length))
      ensures gameId in listed && listed[gameId].last == start
      ensures listed[gameId].total == (if gameId in old(listed) then old(listed)[gameId].total else 0) + length
      ensures forall k :: k != gameId ==>
                            (k in listed <==> k in old(listed)) && (k in listed ==> listed[k] == old(listed)[k])
    {
      var i := 0;
      while i < |gameStats| && gameStats[i].gameId != gameId
        invariant i <= |gameStats| && forall j :: 0 <= j < i ==> gameStats[j].gameId != gameId
      {
        i := i + 1;
      }
      var before := if i < |gameStats| then gameStats[i].totalPlayTime else 0;
      var g := GameStats(gameId, before + length, start);
      if i == |gameStats| {
        AppendHolds(gameStats, listed, g);
        gameStats := gameStats + [g];
      } else {
        UpdateHolds(gameStats, listed, i, g);
        gameStats := gameStats[i := g];
      }
      listed := listed[gameId := Stat(before + length, start)];
    }

    method LoadLine(line: string, ghost before: seq<Record>)
      requires IsMd5(md5) && Holds(gameStats, listed) && listed == Totals(before)
      modifies this`gameStats, this`listed
      ensures Holds(gameStats, listed) && listed == Totals(before + Taken(ParseLine(md5, line)))
    {
      var r := ParseLine(md5, line);
      if r.Some? {
        TotalsOneMore(before, r.value);
        AddSession(r.value.gameId, r.value.start, r.value.length);
      } else {
        assert before + Taken(r) == before;
      }
    }

    method LoadLines(lines: seq<string>)
      requires IsMd5(md5) && Holds(gameStats, listed) && listed == map[]
      modifies this`gameStats, this`listed
      ensures Holds(gameStats, listed) && listed == Totals(Parsed(md5, lines))
    {
      ghost var records: seq<Record> := [];
      for n := 0 to |lines|
        invariant Holds(gameStats, listed) && listed == Totals(records) && records == Parsed(md5, lines[..n])
      {
        ParsedNext(md5, lines, n);
        LoadLine(lines[n], records);
        records := records + Taken(ParseLine(md5, lines[n]));
      }
      assert lines[..|lines|] == lines;
    }

    /** Reads all sessions of the journal; writing goes on behind them. */
    method LoadSessions()
      requires IsMd5(md5)
      modifies this`gameStats, this`listed, this`fileWritePosition
      ensures Holds(gameStats, listed) && listed == Totals(ParseText(md5, file)) && fileWritePosition == |file|
    {
      gameStats, listed := [], map[];
      LoadLines(Lines(file));
      fileWritePosition := |file|;
    }

    method SortSessions()
      requires Holds(gameStats, listed)
      modifies this`gameStats
      ensures Holds(gameStats, listed)
      ensures forall i, j :: 0 <= i < j < |gameStats| ==>
                               gameStats[i].lastSessionStart >= gameStats[j].lastSessionStart
    {
      var sorted := Sort(gameStats, PlayedLater);
      forall i, j | 0 <= i < j < |sorted| ensures sorted[i].lastSessionStart >= sorted[j].lastSessionStart {
        assert !PlayedLater(sorted[j], sorted[i]);
      }
      HoldsPermuted(gameStats, sorted, listed);
      gameStats := sorted;
    }

    /** Reads the journal; the game played last comes first. */
    method Load()
      requires Summed() && journal == file && totals == Totals(ParseText(md5, file)) && IdsFit(ended)
      requires currentGameId == 0 && pinged == None && tpSessionStart <= clock
      modifies this`gameStats, this`listed, this`fileWritePosition
      ensures Valid()
    {
      LoadSessions();
      SortSessions();
      assert Summed();
      assert FileOk();
      assert ListOk();
    }

    static lemma NothingYet(md5: string -> string, file: string)
      requires IsMd5(md5)
      ensures file + Text(md5, Nothing) == file
    {
    }

    /** Makes sure that a game is listed, with its new session as the last one, and first if it was not. */
    method ListGame(gameId: nat, now: nat)
      requires Holds(gameStats, listed)
      modifies this`gameStats, this`listed
      ensures Holds(gameStats, listed) && listed == Played(old(listed), Record(gameId, now, 0))
    {
      AddSession(gameId, now, 0);
      if gameStats[0].gameId != gameId {
        SortSessions();
      }
    }

    method StartSession(gameId: nat, upTime: nat, now: nat)
      requires Valid() && currentGameId == 0 && gameId <= MAX_NUMBER && clock <= upTime
      modifies this`currentGameId, this`tpSessionStart, this`tSessionStart, this`clock, this`gameStats, this`listed
      ensures Valid() && currentGameId == gameId && tSessionStart == now && clock == upTime
    {
      clock, currentGameId, tpSessionStart, tSessionStart := upTime, gameId, upTime, now;
      assert Summed() && FileOk();
      if gameId != 0 {
        ListGame(gameId, now);
      }
    }

    /** Counts the current session among those that are over. */
    method CountSession(length: nat)
      requires ListOk() && currentGameId != 0
      modifies this`gameStats, this`listed
      ensures Holds(gameStats, listed) && listed == Played(totals, Record(currentGameId, tSessionStart, length))
    {
      AddSession(currentGameId, tSessionStart, length);
    }

    /** One more session is over. */
    ghost method SumUp(r: Record)
      requires Summed()
      modifies this`ended, this`journal, this`totals
      ensures Summed() && ended == Then(old(ended), r)
      ensures journal == old(journal) + FullLine(md5, r) && totals == Played(old(totals), r)
    {
      Regroup(loaded, Text(md5, ended), FullLine(md5, r));
      ended, journal, totals := Then(ended, r), journal + FullLine(md5, r), Played(totals, r);
    }

    /** Writes the line of the session that is going on over its previous one. */
    method WriteSessionStats(length: nat) returns (end: nat)
      requires FileOk() && (pinged.Some? ==> pinged.value <= length)
      modifies this`file
      ensures file == journal + CurrentLine(length) && end == |file|
    {
      var line := FullLine(md5, Record(currentGameId, tSessionStart, length));
      if pinged.Some? {
        LongerCovers(md5, currentGameId, tSessionStart, pinged.value, length);
        assert current == CurrentLine(pinged.value);
        WriteBehind(journal, current, line);
      } else {
        WriteBehind(journal, "", line);
        assert file == journal + "";
      }
      file := WriteAt(file, fileWritePosition, line);
      end := fileWritePosition + |line|;
    }

    /** Writes the line of the current session for the last time. */
    method FinishLine(length: nat)
      requires Summed() && FileOk() && (pinged.Some? ==> pinged.value <= length)
      modifies this`file, this`fileWritePosition, this`ended, this`pinged, this`journal, this`totals
      ensures Summed() && FileOk() && file == journal && pinged == None
      ensures ended == Then(old(ended), Record(currentGameId, tSessionStart, length))
      ensures totals == Played(old(totals), Record(currentGameId, tSessionStart, length))
    {
      fileWritePosition := WriteSessionStats(length);
      SumUp(Record(currentGameId, tSessionStart, length));
      pinged := None;
    }

    method EndCurrent(length: nat)
      requires Summed() && FileOk() && ListOk() && currentGameId != 0 && (pinged.Some? ==> pinged.value <= length)
      modifies this`file, this`fileWritePosition, this`ended, this`pinged, this`journal, this`totals, this`gameStats,
               this`listed
      ensures Summed() && FileOk() && file == journal && pinged == None && listed == totals && Holds(gameStats, listed)
      ensures ended == Then(old(ended), Record(currentGameId, tSessionStart, length))
    {
      CountSession(length);
      FinishLine(length);
    }

    /** Ends the session that is going on: its line takes the place of what its pings wrote. */
    method EndSession(upTime: nat)
      requires Valid() && clock <= upTime
      modifies this
      ensures Valid() && currentGameId == 0 && pinged == None && clock == upTime
      ensures ended == if old(currentGameId) == 0 then old(ended) else
                       Then(old(ended), Record(old(currentGameId), old(tSessionStart), old(Elapsed(upTime))))
      ensures file == journal
    {
      if currentGameId != 0 {
        EndCurrent(Elapsed(upTime));
      }
      clock := upTime;
      currentGameId := 0;
      tSessionStart := 0;
    }

    /** Begins a session, after ending the one that is going on. */
    method BeginSession(gameId: nat, upTime: nat, now: nat)
      requires Valid() && gameId <= MAX_NUMBER && clock <= upTime
      modifies this
      ensures Valid() && currentGameId == gameId && tSessionStart == now && pinged == None && clock == upTime
      ensures ended == if old(currentGameId) == 0 then old(ended) else
                       Then(old(ended), Record(old(currentGameId), old(tSessionStart), old(Elapsed(upTime))))
      ensures file == journal
    {
      if currentGameId != 0 {
        EndSession(upTime);
      }
      StartSession(gameId, upTime, now);
    }

    /** Writes how long the current session has lasted so far. */
    method Ping(length: nat)
      requires FileOk() && (pinged.Some? ==> pinged.value <= length)
      modifies this`file, this`pinged, this`current
      ensures FileOk() && pinged == Some(length)
    {
      var _ := WriteSessionStats(length);
      pinged, current := Some(length), CurrentLine(length);
    }

    /** The regular ping of a session. */
    method UpdateSession(start: nat, upTime: nat)
      requires Valid() && clock <= upTime
      modifies this`file, this`pinged, this`current, this`clock
      ensures Valid() && clock == upTime
      ensures pinged ==
              if start == tSessionStart && currentGameId != 0 && Elapsed(upTime) > 60 then Some(Elapsed(upTime))
              else old(pinged)
    {
      clock := upTime;
      if start != tSessionStart {
        return;
      }
      var length := Elapsed(upTime);
      if currentGameId != 0 && length > 60 {
        Ping(length);
      }
    }

    /** The time a game was played in the sessions that are over. */
    ghost function PlayedBefore(gameId: nat): nat
      reads this`ended
    {
      PlayTime(InTurn(before), gameId) + PlayTime(ended, gameId)
    }

    lemma TotalIsPlayed(gameId: nat)
      requires Summed()
      ensures PlayedBefore(gameId) == if gameId in totals then totals[gameId].total else 0
    {
      TotalsAreSums(before, gameId);
      TotalsGrow(Totals(before), ended, gameId);
    }

    /** The list tells it, wherever it has the game. */
    lemma ListedTotal(gameId: nat, i: nat)
      requires Valid() && i <= |gameStats| && (i < |gameStats| ==> gameStats[i].gameId == gameId)
      requires forall j :: 0 <= j < i ==> gameStats[j].gameId != gameId
      ensures PlayedBefore(gameId) == if i < |gameStats| then gameStats[i].totalPlayTime else 0
    {
      TotalIsPlayed(gameId);
      assert gameId in listed <==> i < |gameStats|;
    }

    /** The time a game was played, with the session that is going on. */
    method GetTotalPlaytime(gameId: nat, upTime: nat) returns (total: nat)
      requires Valid() && clock <= upTime
      ensures total == PlayedBefore(gameId) + (if currentGameId == gameId then Elapsed(upTime) else 0)
    {
      total := if currentGameId == gameId then Elapsed(upTime) else 0;
      var i := 0;
      while i < |gameStats| && gameStats[i].gameId != gameId
        invariant i <= |gameStats| && forall j :: 0 <= j < i ==> gameStats[j].gameId != gameId
      {
        i := i + 1;
      }
      ListedTotal(gameId, i);
      if i < |gameStats| {
        total := total + gameStats[i].totalPlayTime;
      }
    }

    // ----- Loading the journal again

    /** The sessions written since the journal was loaded: those that are over, and the one going on with the
        length of its latest ping. */
    ghost function Written(): History
      reads this`ended, this`pinged, this`currentGameId, this`tSessionStart
    {
      if pinged.Some? then Then(ended, Record(currentGameId, tSessionStart, pinged.value)) else ended
    }

    /** Nothing is left in the journal of earlier pings. */
    lemma WrittenIsFile()
      requires Valid()
      ensures file == loaded + Text(md5, Written())
    {
      if pinged.Some? {
        assert current == CurrentLine(pinged.value);
        Regroup(loaded, Text(md5, ended), current);
      }
    }

    /** Loading the journal finds the old sessions and the written ones, clipped to 32 bits. */
    lemma ReloadFindsSessions()
      requires Valid() && EndsLine(loaded) && before == ParseText(md5, loaded)
      ensures ParseText(md5, file) == before + ClippedAll(Written())
    {
      WrittenIsFile();
      TextIsRead(md5, loaded, Written());
    }

    /** The same for a journal that was loaded with an unfinished line: the first session written is taken
        for the rest of that line. */
    lemma ReloadUnfinished(s: string, part: string)
      requires Valid() && loaded == s + part && EndsLine(s) && '\n' !in part && Written().Then?
      ensures ParseText(md5, file) == ParseText(md5, s) + Taken(ParseLine(md5, part + Line(md5, First(Written()))))
                                      + ClippedAll(Rest(Written()))
    {
      WrittenIsFile();
      UnfinishedTextIsRead(md5, s, part, Written());
    }

    /** Once the session is over, loading the journal gives the totals and the last starts that are in memory
        exactly when, for each game, the lengths of the sessions and the start of the latest one fit in 32 bits. */
    lemma ReloadIsMemory()
      requires Valid() && EndsLine(loaded) && before == ParseText(md5, loaded) && currentGameId == 0
      ensures Holds(gameStats, Totals(ParseText(md5, file)))
         <==> forall k :: LengthsFit(ended, k) && LatestFits(ended, k)
    {
      ReloadFindsSessions();
      TotalsOfAll(before, ended);
      if Holds(gameStats, Totals(ParseText(md5, file))) {
        HoldsOne(gameStats, totals, Totals(ParseText(md5, file)));
      }
    }
  }

  // ----- Where the promise ends

  /** A session that begins at second 2^32: the list that loading gives is not the one in memory. */
  method LateStartIsClipped(md5: string -> string) returns (memory: seq<GameStats>, loaded: seq<GameStats>)
    requires IsMd5(md5)
    ensures multiset(memory) != multiset(loaded)
  {
    var tracker := new SessionTracker(md5, "");
    tracker.BeginSession(1, 0, 0x1_0000_0000);
    tracker.EndSession(0);
    tracker.ReloadIsMemory();
    assert !LatestFits(tracker.ended, 1);
    var again := new SessionTracker(md5, tracker.file);
    memory, loaded := tracker.gameStats, again.gameStats;
    if multiset(memory) == multiset(loaded) {
      HoldsPermuted(loaded, memory, Totals(ParseText(md5, tracker.file)));
      assert false;
    }
  }

  lemma OnlySession(r: Record)
    ensures PlayTime(Then(Nothing, r), r.gameId) == r.length && PlayTime(InTurn([r]), r.gameId) == r.length
    ensures PlayTime(InTurn([]), r.gameId) == PlayTime(Nothing, r.gameId) == 0
    ensures Clipped(r) == r ==> [] + ClippedAll(Then(Nothing, r)) == [r]
  {
    assert [r][..0] == [];
  }

  /** A session of 100 seconds in an empty journal. */
  method PlaysHundred(md5: string -> string) returns (tracker: SessionTracker, total: nat)
    requires IsMd5(md5)
    ensures tracker.Valid() && tracker.md5 == md5 && tracker.currentGameId == 0
    ensures ParseText(md5, tracker.file) == [Record(1, 17, 100)]
    ensures total == 100
  {
    ghost var r := Record(1, 17, 100);
    OnlySession(r);
    tracker := new SessionTracker(md5, "");
    tracker.BeginSession(1, 0, 17);
    tracker.EndSession(100_000_000_000);
    assert tracker.ended == Then(Nothing, r);
    tracker.ReloadFindsSessions();
    total := tracker.GetTotalPlaytime(1, 100_000_000_000);
  }

  /** Loading its journal again. */
  method ReloadsHundred(md5: string -> string) returns (total: nat)
    requires IsMd5(md5)
    ensures total == 100
  {
    OnlySession(Record(1, 17, 100));
    var tracker, played := PlaysHundred(md5);
    var again := new SessionTracker(md5, tracker.file);
    total := again.GetTotalPlaytime(1, 0);
  }
}
