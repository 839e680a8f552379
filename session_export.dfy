/** The match-history CSV export of a session (src/lib/session-match-history-export.ts):
    the finished matches, oldest first, one row each under a fixed header, with player
    names looked up by ID. `new Date(t).toISOString()` is the parameter `iso`, and the
    `YYYY-MM-DD` of a start date that `Date` can parse is the parameter `parsedDate`. */
module SessionExport {
  import opened Util
  import opened Types
  import opened StableSorting
  import opened StatsRoute
  import opened MatchOrder

  // ---------------------------------------------------------------------------
  // Fields

  /** A cell value: `null`/`undefined`, a string, or an integer number. */
  datatype CsvValue = Missing | Text(text: string) | Number(n: int)

  /** The characters `/[",\n]/` looks for. */
  predicate Special(c: char)
  {
    c == '"' || c == ',' || c == '\n'
  }

  predicate NeedsQuotes(s: string)
  {
    exists k :: 0 <= k < |s| && Special(s[k])
  }

  /** `s.replace(/"/g, '""')` */
  function DoubleQuotes(s: string): (r: string)
    ensures |r| >= |s|
  {
    if |s| == 0 then ""
    else (if s[0] == '"' then "\"\"" else [s[0]]) + DoubleQuotes(s[1..])
  }

  /** The field text of a string: unchanged unless it holds a quote, a comma or a line
      feed, in which case it is quoted with every quote doubled. */
  function EscapeString(s: string): (r: string)
    ensures !NeedsQuotes(s) ==> r == s
    ensures NeedsQuotes(s) ==> |r| >= |s| + 2 && r[0] == '"' && r[|r| - 1] == '"'
  {
    if NeedsQuotes(s) then "\"" + DoubleQuotes(s) + "\"" else s
  }

  /** `escapeCsv(value)`: `null` and `undefined` give the empty field; anything else is
      escaped as the string `String(value)`. */
  function EscapeCsv(value: CsvValue): string
  {
    match value
    case Missing => ""
    case Text(s) => EscapeString(s)
    case Number(n) => EscapeString(IntToString(n))
  }

  // ---------------------------------------------------------------------------
  // Reading a field back

  /** Each doubled quote read as one quote. */
  function UndoubleQuotes(s: string): string
  {
    if |s| == 0 then ""
    else if |s| >= 2 && s[0] == '"' && s[1] == '"' then "\"" + UndoubleQuotes(s[2..])
    else [s[0]] + UndoubleQuotes(s[1..])
  }

  /** A quoted field has its outer quotes stripped and its quotes un-doubled; any other
      field is its own text. */
  function Unescape(field: string): string
  {
    if |field| >= 2 && field[0] == '"' && field[|field| - 1] == '"' then UndoubleQuotes(field[1..|field| - 1])
    else field
  }

  lemma {:induction false} UndoubleDoubled(s: string)
    ensures UndoubleQuotes(DoubleQuotes(s)) == s
  {
    if |s| > 0 {
      var d := DoubleQuotes(s);
      UndoubleDoubled(s[1..]);
      if s[0] == '"' {
        assert d == "\"\"" + DoubleQuotes(s[1..]);
        assert d[2..] == DoubleQuotes(s[1..]);
      } else {
        assert d == [s[0]] + DoubleQuotes(s[1..]);
        assert d[1..] == DoubleQuotes(s[1..]);
      }
      assert s == [s[0]] + s[1..];
    }
  }

  /** Escaping loses nothing: reading an escaped field back gives the original string. */
  lemma EscapeRoundTrip(s: string)
    ensures Unescape(EscapeString(s)) == s
  {
    var r := EscapeString(s);
    if NeedsQuotes(s) {
      assert r[1..|r| - 1] == DoubleQuotes(s);
      UndoubleDoubled(s);
    } else if |s| >= 2 && s[0] == '"' {
      assert Special(s[0]);
      assert false;
    }
  }

  /** A number never needs quoting: its field is its decimal text. */
  lemma NumbersUnquoted(n: int)
    ensures EscapeCsv(Number(n)) == IntToString(n)
  {
    IntTextChars(n);
  }

  /** The decimal text of an integer holds digits and at most a leading minus sign. */
  lemma IntTextChars(n: int)
    ensures forall k :: 0 <= k < |IntToString(n)| ==> IntToString(n)[k] == '-' || '0' <= IntToString(n)[k] <= '9'
  {
    var s := IntToString(n);
    var digits := NatToString(if n < 0 then -n else n);
    assert s == if n < 0 then "-" + digits else digits;
    forall k | 0 <= k < |s| ensures s[k] == '-' || '0' <= s[k] <= '9' {
      if n < 0 && k > 0 {
        assert s[k] == digits[k - 1];
      }
    }
  }

  // ---------------------------------------------------------------------------
  // The document

  /** `row[header]`: a key the row lacks reads as `undefined`. */
  function Lookup(row: map<string, CsvValue>, header: string): CsvValue
  {
    if header in row then row[header] else Missing
  }

  /** One data line: the row's escaped values in header order, joined by commas. */
  function RowLine(row: map<string, CsvValue>, headers: seq<string>): string
  {
    Join(seq(|headers|, i requires 0 <= i < |headers| => EscapeCsv(Lookup(row, headers[i]))), ",")
  }

  function Lines(rows: seq<map<string, CsvValue>>, headers: seq<string>): (lines: seq<string>)
    ensures |lines| == |rows| + 1
  {
    [Join(headers, ",")] + seq(|rows|, i requires 0 <= i < |rows| => RowLine(rows[i], headers))
  }

  /** `toCsv(rows, headers)`: the header line, then a line per row, joined by line feeds. */
  function ToCsv(rows: seq<map<string, CsvValue>>, headers: seq<string>): string
  {
    Join(Lines(rows, headers), "\n")
  }

  /** `s.split(c)` */
  function Split(s: string, c: char): (parts: seq<string>)
    ensures |parts| > 0
  {
    if |s| == 0 then [""]
    else
      var rest := Split(s[1..], c);
      if s[0] == c then [""] + rest else [[s[0]] + rest[0]] + rest[1..]
  }

  lemma {:induction false} SplitWithout(s: string, c: char)
    requires c !in s
    ensures Split(s, c) == [s]
  {
    if |s| > 0 {
      SplitWithout(s[1..], c);
      assert [s[0]] + s[1..] == s;
    }
  }

  lemma {:induction false} SplitAfter(a: string, b: string, c: char)
    requires c !in a
    ensures Split(a + [c] + b, c) == [a] + Split(b, c)
  {
    var s := a + [c] + b;
    if |a| == 0 {
      assert s[1..] == b;
    } else {
      assert s[1..] == a[1..] + [c] + b;
      SplitAfter(a[1..], b, c);
      assert [a[0]] + a[1..] == a;
    }
  }

  /** Splitting parts joined by a separator they do not contain gives the parts back. */
  lemma {:induction false} SplitJoin(parts: seq<string>, c: char)
    requires |parts| > 0 && forall i :: 0 <= i < |parts| ==> c !in parts[i]
    ensures Split(Join(parts, [c]), c) == parts
  {
    if |parts| == 1 {
      SplitWithout(parts[0], c);
    } else {
      SplitJoin(parts[1..], c);
      assert Join(parts, [c]) == parts[0] + [c] + Join(parts[1..], [c]);
      SplitAfter(parts[0], Join(parts[1..], [c]), c);
      assert [parts[0]] + parts[1..] == parts;
    }
  }

  /** Parts and a separator free of c join into a string free of c. */
  lemma {:induction false} JoinAvoids(parts: seq<string>, sep: string, c: char)
    requires c !in sep && forall i :: 0 <= i < |parts| ==> c !in parts[i]
    ensures c !in Join(parts, sep)
  {
    if |parts| > 1 {
      JoinAvoids(parts[1..], sep, c);
    }
  }

  /** The text a value stands for, before escaping. */
  function ValueText(value: CsvValue): string
  {
    match value
    case Missing => ""
    case Text(s) => s
    case Number(n) => IntToString(n)
  }

  lemma {:induction false} DoubleQuotesAvoids(s: string)
    requires '\n' !in s
    ensures '\n' !in DoubleQuotes(s)
  {
    if |s| > 0 {
      assert s[0] in s;
      assert '\n' !in s[1..] by {
        assert forall x :: x in s[1..] ==> x in s;
      }
      DoubleQuotesAvoids(s[1..]);
    }
  }

  /** Escaping never introduces a line feed. */
  lemma EscapeAvoidsNewline(value: CsvValue)
    requires '\n' !in ValueText(value)
    ensures '\n' !in EscapeCsv(value)
  {
    if value.Number? {
      NumbersUnquoted(value.n);
    } else if value.Text? && NeedsQuotes(value.text) {
      DoubleQuotesAvoids(value.text);
    }
  }

  predicate LineFeedFree(row: map<string, CsvValue>, headers: seq<string>)
  {
    forall i :: 0 <= i < |headers| ==> '\n' !in ValueText(Lookup(row, headers[i]))
  }

  lemma RowLineAvoidsNewline(row: map<string, CsvValue>, headers: seq<string>)
    requires LineFeedFree(row, headers)
    ensures '\n' !in RowLine(row, headers)
  {
    var fields := seq(|headers|, i requires 0 <= i < |headers| => EscapeCsv(Lookup(row, headers[i])));
    forall i | 0 <= i < |headers| ensures '\n' !in fields[i] {
      EscapeAvoidsNewline(Lookup(row, headers[i]));
    }
    JoinAvoids(fields, ",", '\n');
  }

  lemma LinesAvoidNewline(rows: seq<map<string, CsvValue>>, headers: seq<string>)
    requires forall i :: 0 <= i < |headers| ==> '\n' !in headers[i]
    requires forall r :: 0 <= r < |rows| ==> LineFeedFree(rows[r], headers)
    ensures forall i :: 0 <= i < |rows| + 1 ==> '\n' !in Lines(rows, headers)[i]
  {
    var lines := Lines(rows, headers);
    JoinAvoids(headers, ",", '\n');
    forall i | 0 <= i < |lines| ensures '\n' !in lines[i] {
      if i > 0 {
        assert lines[i] == RowLine(rows[i - 1], headers);
        RowLineAvoidsNewline(rows[i - 1], headers);
      }
    }
  }

  /** Splitting the document on line feeds gives the header line followed by one line
      per row, whenever no header and no value holds a line feed. */
  lemma CsvLines(rows: seq<map<string, CsvValue>>, headers: seq<string>)
    requires forall i :: 0 <= i < |headers| ==> '\n' !in headers[i]
    requires forall r :: 0 <= r < |rows| ==> LineFeedFree(rows[r], headers)
    ensures var lines := Split(ToCsv(rows, headers), '\n');
      && |lines| == |rows| + 1
      && lines[0] == Join(headers, ",")
      && forall r :: 0 <= r < |rows| ==> lines[r + 1] == RowLine(rows[r], headers)
  {
    LinesAvoidNewline(rows, headers);
    SplitJoin(Lines(rows, headers), '\n');
  }

  /** A row whose values need no quoting reads back, split on commas, as its values'
      texts in header order. */
  lemma PlainRowRoundTrip(row: map<string, CsvValue>, headers: seq<string>)
    requires |headers| > 0
    requires forall i :: 0 <= i < |headers| ==> !NeedsQuotes(ValueText(Lookup(row, headers[i])))
    ensures Split(RowLine(row, headers), ',') == seq(|headers|, i requires 0 <= i < |headers| => ValueText(Lookup(row, headers[i])))
  {
    var fields := seq(|headers|, i requires 0 <= i < |headers| => EscapeCsv(Lookup(row, headers[i])));
    var texts := seq(|headers|, i requires 0 <= i < |headers| => ValueText(Lookup(row, headers[i])));
    forall i | 0 <= i < |headers| ensures fields[i] == texts[i] && ',' !in fields[i] {
      var v := Lookup(row, headers[i]);
      if v.Number? {
        NumbersUnquoted(v.n);
      }
    }
    assert fields == texts;
    SplitJoin(fields, ',');
  }

  // ---------------------------------------------------------------------------
  // Names

  /** `new Map(players.map(p => [p.id, p.name]))`: a later player with an ID
      overwrites an earlier one. */
  function NameMap(players: seq<Player>): map<PlayerId, string>
  {
    if |players| == 0 then map[]
    else NameMap(players[..|players| - 1])[players[|players| - 1].id := players[|players| - 1].name]
  }

  /** The map holds exactly the stored IDs, each with the name of the last player
      stored under it. */
  lemma {:induction false} NameMapIsLastName(players: seq<Player>, id: PlayerId)
    ensures id in NameMap(players) <==> exists k :: 0 <= k < |players| && players[k].id == id
    ensures id in NameMap(players) ==>
      exists k :: && 0 <= k < |players| && players[k].id == id
                  && NameMap(players)[id] == players[k].name
                  && forall j :: k < j < |players| ==> players[j].id != id
  {
    if |players| > 0 {
      var n := |players| - 1;
      var init := players[..n];
      NameMapIsLastName(init, id);
      if players[n].id != id {
        if id in NameMap(init) {
          var k :| 0 <= k < |init| && init[k].id == id && NameMap(init)[id] == init[k].name
            && forall j :: k < j < |init| ==> init[j].id != id;
          assert players[k] == init[k];
          assert forall j :: k < j < |players| ==> players[j].id != id by {
            forall j | k < j < |players| ensures players[j].id != id {
              if j < n {
                assert players[j] == init[j];
              }
            }
          }
        }
        if exists k :: 0 <= k < |players| && players[k].id == id {
          var k :| 0 <= k < |players| && players[k].id == id;
          assert k < n && init[k] == players[k];
        }
      }
    }
  }

  /** `playerMap.get(id) || 'Unknown'`: an unknown ID, or a stored empty name, shows as
      `Unknown`. */
  function DisplayName(names: map<PlayerId, string>, id: PlayerId): (r: string)
    ensures r != ""
    ensures id in names && names[id] != "" ==> r == names[id]
    ensures id !in names ==> r == "Unknown"
    ensures id in names && names[id] == "" ==> r == "Unknown"
  {
    if id in names && names[id] != "" then names[id] else "Unknown"
  }

  /** `getTeamNames`: the display names joined by ` & `. */
  function TeamNames(names: map<PlayerId, string>, ids: seq<PlayerId>): string
  {
    Join(seq(|ids|, i requires 0 <= i < |ids| => DisplayName(names, ids[i])), " & ")
  }

  /** A doubles team reads `A & B`, each side its display name. */
  lemma TeamNamesOfPair(names: map<PlayerId, string>, a: PlayerId, b: PlayerId)
    ensures TeamNames(names, [a, b]) == DisplayName(names, a) + " & " + DisplayName(names, b)
  {
    var shown := seq(2, i requires 0 <= i < 2 => DisplayName(names, [a, b][i]));
    assert shown == [DisplayName(names, a), DisplayName(names, b)];
    assert shown[1..] == [DisplayName(names, b)];
  }

  /** An ID no stored player carries shows as `Unknown`. */
  lemma UnstoredIsUnknown(players: seq<Player>, id: PlayerId)
    requires forall k :: 0 <= k < |players| ==> players[k].id != id
    ensures DisplayName(NameMap(players), id) == "Unknown"
  {
    NameMapIsLastName(players, id);
  }

  // ---------------------------------------------------------------------------
  // The export

  const Headers: seq<string> := [
    "sessionId", "matchId", "courtNumber", "timestampEpoch", "timestampIso",
    "team1Names", "team1Ids", "team2Names", "team2Ids",
    "score1", "score2", "winnerTeam", "winnerNames"]

  /** `x ?? ''` */
  function OrEmpty(x: Option<int>): CsvValue
  {
    match x
    case Some(v) => Number(v)
    case None => Text("")
  }

  /** The winner's names: team 1's for winner 1, team 2's for winner 2, else empty. */
  function WinnerNames(m: Match, team1Names: string, team2Names: string): (r: string)
    ensures m.winnerTeam == Some(1) ==> r == team1Names
    ensures m.winnerTeam == Some(2) ==> r == team2Names
    ensures m.winnerTeam.None? ==> r == ""
  {
    if m.winnerTeam == Some(1) then team1Names
    else if m.winnerTeam == Some(2) then team2Names
    else ""
  }

  function WinnerValue(m: Match): CsvValue
  {
    match m.winnerTeam
    case Some(w) => Number(w)
    case None => Text("")
  }

  /** The record built for one finished match. */
  function Row(sessionId: string, names: map<PlayerId, string>, m: Match, iso: int -> string): map<string, CsvValue>
  {
    var team1Names, team2Names := TeamNames(names, m.team1), TeamNames(names, m.team2);
    Record(Text(sessionId), Text(m.id), OrEmpty(m.courtNumber), Number(m.timestamp), Text(iso(m.timestamp)),
           Text(team1Names), Text(Join(m.team1, "|")), Text(team2Names), Text(Join(m.team2, "|")),
           OrEmpty(m.score1), OrEmpty(m.score2), WinnerValue(m), Text(WinnerNames(m, team1Names, team2Names)))
  }

  /** The object literal of a row, keyed by the headers. */
  function Record(sessionId: CsvValue, matchId: CsvValue, courtNumber: CsvValue, timestampEpoch: CsvValue,
                  timestampIso: CsvValue, team1Names: CsvValue, team1Ids: CsvValue, team2Names: CsvValue,
                  team2Ids: CsvValue, score1: CsvValue, score2: CsvValue, winnerTeam: CsvValue,
                  winnerNames: CsvValue): map<string, CsvValue>
  {
    map[
      "sessionId" := sessionId, "matchId" := matchId, "courtNumber" := courtNumber,
      "timestampEpoch" := timestampEpoch, "timestampIso" := timestampIso, "team1Names" := team1Names,
      "team1Ids" := team1Ids, "team2Names" := team2Names, "team2Ids" := team2Ids, "score1" := score1,
      "score2" := score2, "winnerTeam" := winnerTeam, "winnerNames" := winnerNames]
  }

  lemma RecordLineFeedFree(sessionId: CsvValue, matchId: CsvValue, courtNumber: CsvValue, timestampEpoch: CsvValue,
                           timestampIso: CsvValue, team1Names: CsvValue, team1Ids: CsvValue, team2Names: CsvValue,
                           team2Ids: CsvValue, score1: CsvValue, score2: CsvValue, winnerTeam: CsvValue,
                           winnerNames: CsvValue)
    requires '\n' !in ValueText(sessionId) && '\n' !in ValueText(matchId) && '\n' !in ValueText(courtNumber)
    requires '\n' !in ValueText(timestampEpoch) && '\n' !in ValueText(timestampIso)
    requires '\n' !in ValueText(team1Names) && '\n' !in ValueText(team1Ids)
    requires '\n' !in ValueText(team2Names) && '\n' !in ValueText(team2Ids)
    requires '\n' !in ValueText(score1) && '\n' !in ValueText(score2)
    requires '\n' !in ValueText(winnerTeam) && '\n' !in ValueText(winnerNames)
    ensures ValuesLineFeedFree(Record(sessionId, matchId, courtNumber, timestampEpoch, timestampIso, team1Names,
                                      team1Ids, team2Names, team2Ids, score1, score2, winnerTeam, winnerNames))
  {
  }

  predicate ValuesLineFeedFree(row: map<string, CsvValue>)
  {
    forall key :: key in row ==> '\n' !in ValueText(row[key])
  }

  lemma ValuesLineFeedFreeRow(row: map<string, CsvValue>, headers: seq<string>)
    requires ValuesLineFeedFree(row)
    ensures LineFeedFree(row, headers)
  {
    forall i | 0 <= i < |headers| ensures '\n' !in ValueText(Lookup(row, headers[i])) {
      if headers[i] in row {
        assert '\n' !in ValueText(row[headers[i]]);
      }
    }
  }

  /** The finished matches, oldest first. */
  function ExportedMatches(matches: seq<Match>): seq<Match>
  {
    Chronological(Filter(matches, IsFinished))
  }

  /** The characters `/[^a-zA-Z0-9-_]/` leaves alone. */
  predicate FilenameChar(c: char)
  {
    ('a' <= c <= 'z') || ('A' <= c <= 'Z') || ('0' <= c <= '9') || c == '-' || c == '_'
  }

  /** The fallback of `getSessionDateForFilename` for a start date `Date` cannot
      parse: every other character becomes `-`, then the first 20 are kept. */
  function FallbackDate(startDate: string): (r: string)
    ensures |r| == if |startDate| < 20 then |startDate| else 20
    ensures forall k :: 0 <= k < |r| ==> FilenameChar(r[k])
    ensures forall k :: 0 <= k < |r| && FilenameChar(startDate[k]) ==> r[k] == startDate[k]
    ensures forall k :: 0 <= k < |r| && !FilenameChar(startDate[k]) ==> r[k] == '-'
  {
    var replaced := seq(|startDate|, k requires 0 <= k < |startDate| => if FilenameChar(startDate[k]) then startDate[k] else '-');
    if |replaced| <= 20 then replaced else replaced[..20]
  }

  /** The date part of the file name. */
  function SessionDateForFilename(startDate: string, parsedDate: Option<string>): string
  {
    match parsedDate
    case Some(d) => d
    case None => FallbackDate(startDate)
  }

  function Filename(sessionDate: string, sessionId: string): string
  {
    "session-" + sessionDate + "-" + sessionId + "-match-history.csv"
  }

  datatype Export = Export(csv: string, filename: string)

  /** `buildSessionMatchHistoryExport` */
  function BuildExport(sessionId: string, sessionStartDate: string, parsedDate: Option<string>,
                       matches: seq<Match>, players: seq<Player>, iso: int -> string): Export
  {
    var rows := ExportRows(sessionId, NameMap(players), ExportedMatches(matches), iso);
    Export(ToCsv(rows, Headers), Filename(SessionDateForFilename(sessionStartDate, parsedDate), sessionId))
  }

  /** One record per exported match, in the same order. */
  function ExportRows(sessionId: string, names: map<PlayerId, string>, exported: seq<Match>, iso: int -> string)
    : (rows: seq<map<string, CsvValue>>)
    ensures |rows| == |exported|
    ensures forall r :: 0 <= r < |rows| ==> rows[r] == Row(sessionId, names, exported[r], iso)
  {
    seq(|exported|, i requires 0 <= i < |exported| => Row(sessionId, names, exported[i], iso))
  }

  // ---------------------------------------------------------------------------
  // Properties of the export

  /** Exactly the finished matches are exported, each as often as it is stored, in
      ascending timestamp order. */
  lemma ExportedAreFinishedInOrder(matches: seq<Match>)
    ensures var e := ExportedMatches(matches);
      && multiset(e) == multiset(Filter(matches, IsFinished))
      && (forall m :: m in e <==> m in matches && m.isFinished)
      && (forall i, j :: 0 <= i < j < |e| ==> e[i].timestamp <= e[j].timestamp)
  {
    var finished := Filter(matches, IsFinished);
    ChronologicalOrder(finished);
    var e := ExportedMatches(matches);
    forall m ensures m in e <==> m in matches && m.isFinished {
      assert m in e <==> m in multiset(e);
      assert m in finished <==> m in multiset(finished);
    }
  }

  /** No input text holds a line feed: the session ID, the stored names, and the IDs
      and ISO timestamps of the finished matches. */
  predicate LineFeedFreeInputs(sessionId: string, matches: seq<Match>, players: seq<Player>, iso: int -> string)
  {
    && '\n' !in sessionId
    && (forall k :: 0 <= k < |players| ==> '\n' !in players[k].name)
    && (forall m :: m in matches && m.isFinished ==>
          && '\n' !in m.id && '\n' !in iso(m.timestamp)
          && (forall j :: 0 <= j < |m.team1| ==> '\n' !in m.team1[j])
          && (forall j :: 0 <= j < |m.team2| ==> '\n' !in m.team2[j]))
  }

  lemma IntTextAvoidsNewline(n: int)
    ensures '\n' !in IntToString(n)
  {
    IntTextChars(n);
  }

  lemma TeamNamesAvoidNewline(players: seq<Player>, ids: seq<PlayerId>)
    requires forall k :: 0 <= k < |players| ==> '\n' !in players[k].name
    ensures '\n' !in TeamNames(NameMap(players), ids)
  {
    NameMapAvoidsNewline(players);
    NamesAvoidNewline(NameMap(players), ids);
  }

  lemma {:induction false} NameMapAvoidsNewline(players: seq<Player>)
    requires forall k :: 0 <= k < |players| ==> '\n' !in players[k].name
    ensures forall id :: id in NameMap(players) ==> '\n' !in NameMap(players)[id]
  {
    if |players| > 0 {
      NameMapAvoidsNewline(players[..|players| - 1]);
    }
  }

  lemma NamesAvoidNewline(names: map<PlayerId, string>, ids: seq<PlayerId>)
    requires forall id :: id in names ==> '\n' !in names[id]
    ensures '\n' !in TeamNames(names, ids)
  {
    var shown := seq(|ids|, i requires 0 <= i < |ids| => DisplayName(names, ids[i]));
    forall i | 0 <= i < |ids| ensures '\n' !in shown[i] {
    }
    JoinAvoids(shown, " & ", '\n');
  }

  /** A row keeps every value free of line feeds when its inputs are. */
  lemma RowAvoidsNewline(sessionId: string, players: seq<Player>, m: Match, iso: int -> string)
    requires '\n' !in sessionId && '\n' !in m.id && '\n' !in iso(m.timestamp)
    requires forall k :: 0 <= k < |players| ==> '\n' !in players[k].name
    requires forall j :: 0 <= j < |m.team1| ==> '\n' !in m.team1[j]
    requires forall j :: 0 <= j < |m.team2| ==> '\n' !in m.team2[j]
    ensures ValuesLineFeedFree(Row(sessionId, NameMap(players), m, iso))
  {
    var names := NameMap(players);
    TeamNamesAvoidNewline(players, m.team1);
    TeamNamesAvoidNewline(players, m.team2);
    JoinAvoids(m.team1, "|", '\n');
    JoinAvoids(m.team2, "|", '\n');
    IntTextAvoidsNewline(m.timestamp);
    OptionalAvoidsNewline(m.courtNumber);
    OptionalAvoidsNewline(m.score1);
    OptionalAvoidsNewline(m.score2);
    WinnerValueAvoidsNewline(m);
    RowFromTexts(sessionId, names, m, iso, TeamNames(names, m.team1), TeamNames(names, m.team2));
  }

  /** The same, with the team names already computed: each of the thirteen values is
      one of the given texts, so none holds a line feed. */
  lemma RowFromTexts(sessionId: string, names: map<PlayerId, string>, m: Match, iso: int -> string,
                     team1Names: string, team2Names: string)
    requires team1Names == TeamNames(names, m.team1) && team2Names == TeamNames(names, m.team2)
    requires '\n' !in sessionId && '\n' !in m.id && '\n' !in iso(m.timestamp)
    requires '\n' !in team1Names && '\n' !in team2Names
    requires '\n' !in Join(m.team1, "|") && '\n' !in Join(m.team2, "|")
    requires '\n' !in ValueText(OrEmpty(m.courtNumber)) && '\n' !in ValueText(OrEmpty(m.score1))
    requires '\n' !in ValueText(OrEmpty(m.score2))
    requires '\n' !in ValueText(WinnerValue(m)) && '\n' !in IntToString(m.timestamp)
    ensures ValuesLineFeedFree(Row(sessionId, names, m, iso))
  {
    RecordLineFeedFree(Text(sessionId), Text(m.id), OrEmpty(m.courtNumber), Number(m.timestamp), Text(iso(m.timestamp)),
                       Text(team1Names), Text(Join(m.team1, "|")), Text(team2Names), Text(Join(m.team2, "|")),
                       OrEmpty(m.score1), OrEmpty(m.score2), WinnerValue(m), Text(WinnerNames(m, team1Names, team2Names)));
  }

  lemma WinnerValueAvoidsNewline(m: Match)
    ensures '\n' !in ValueText(WinnerValue(m))
  {
    match m.winnerTeam
    case Some(w) => IntTextAvoidsNewline(w);
    case None =>
  }

  lemma OptionalAvoidsNewline(x: Option<int>)
    ensures '\n' !in ValueText(OrEmpty(x))
  {
    match x
    case Some(n) => IntTextAvoidsNewline(n);
    case None =>
  }

  /** The exported document reads back, line by line, as the header line and then one
      line per finished match, oldest first, whenever no input text holds a line feed. */
  lemma ExportLines(sessionId: string, sessionStartDate: string, parsedDate: Option<string>,
                    matches: seq<Match>, players: seq<Player>, iso: int -> string)
    requires LineFeedFreeInputs(sessionId, matches, players, iso)
    ensures var exported := ExportedMatches(matches);
      var lines := Split(BuildExport(sessionId, sessionStartDate, parsedDate, matches, players, iso).csv, '\n');
      && |lines| == |exported| + 1
      && lines[0] == Join(Headers, ",")
      && forall r :: 0 <= r < |exported| ==> lines[r + 1] == RowLine(Row(sessionId, NameMap(players), exported[r], iso), Headers)
  {
    var rows := ExportRows(sessionId, NameMap(players), ExportedMatches(matches), iso);
    ExportRowsLineFeedFree(sessionId, matches, players, iso, rows);
    HeadersLineFeedFree();
    CsvLines(rows, Headers);
    ExportCsvIsRows(sessionId, sessionStartDate, parsedDate, matches, players, iso, rows);
  }

  /** The document is the CSV text of the export's records. */
  lemma ExportCsvIsRows(sessionId: string, sessionStartDate: string, parsedDate: Option<string>,
                        matches: seq<Match>, players: seq<Player>, iso: int -> string, rows: seq<map<string, CsvValue>>)
    requires rows == ExportRows(sessionId, NameMap(players), ExportedMatches(matches), iso)
    ensures BuildExport(sessionId, sessionStartDate, parsedDate, matches, players, iso).csv == ToCsv(rows, Headers)
  {
  }

  /** No column header holds a line feed. */
  lemma HeadersLineFeedFree()
    ensures forall i :: 0 <= i < |Headers| ==> '\n' !in Headers[i]
  {
  }

  /** Every exported record keeps its values free of line feeds. */
  lemma ExportRowsLineFeedFree(sessionId: string, matches: seq<Match>, players: seq<Player>, iso: int -> string,
                               rows: seq<map<string, CsvValue>>)
    requires LineFeedFreeInputs(sessionId, matches, players, iso)
    requires rows == ExportRows(sessionId, NameMap(players), ExportedMatches(matches), iso)
    ensures forall r :: 0 <= r < |rows| ==> LineFeedFree(rows[r], Headers)
  {
    var exported := ExportedMatches(matches);
    ExportedAreFinishedInOrder(matches);
    forall r | 0 <= r < |exported|
      ensures LineFeedFree(Row(sessionId, NameMap(players), exported[r], iso), Headers)
    {
      assert exported[r] in exported;
      ExportedRowLineFeedFree(sessionId, matches, players, iso, exported[r]);
    }
  }

  lemma ExportedRowLineFeedFree(sessionId: string, matches: seq<Match>, players: seq<Player>, iso: int -> string, m: Match)
    requires LineFeedFreeInputs(sessionId, matches, players, iso)
    requires m in matches && m.isFinished
    ensures LineFeedFree(Row(sessionId, NameMap(players), m, iso), Headers)
  {
    RowAvoidsNewline(sessionId, players, m, iso);
    ValuesLineFeedFreeRow(Row(sessionId, NameMap(players), m, iso), Headers);
  }

  /** The file name is `session-<date>-<sessionId>-match-history.csv`. */
  lemma FilenameParts(sessionDate: string, sessionId: string)
    ensures var f := Filename(sessionDate, sessionId);
      && |f| == 27 + |sessionDate| + |sessionId|
      && f[..8] == "session-"
      && f[8..8 + |sessionDate|] == sessionDate
      && f[9 + |sessionDate|..9 + |sessionDate| + |sessionId|] == sessionId
      && f[|f| - 18..] == "-match-history.csv"
  {
    var f := Filename(sessionDate, sessionId);
    var p := "session-" + sessionDate;
    var q := p + "-" + sessionId;
    assert f == q + "-match-history.csv";
    assert q[..|p|] == p;
    assert f[..|p|] == p;
    assert p[..8] == "session-";
    assert p[8..] == sessionDate;
    assert q[|p| + 1..] == sessionId;
    assert f[|q|..] == "-match-history.csv";
  }

  /** The exported file name carries the parsed date, or else at most 20 characters of
      the start date, each file-name-safe. */
  lemma ExportFilename(sessionId: string, sessionStartDate: string, parsedDate: Option<string>,
                       matches: seq<Match>, players: seq<Player>, iso: int -> string)
    ensures var f := BuildExport(sessionId, sessionStartDate, parsedDate, matches, players, iso).filename;
      && f[..8] == "session-"
      && f[|f| - 18..] == "-match-history.csv"
      && (parsedDate.Some? ==> f[8..8 + |parsedDate.value|] == parsedDate.value)
      && (parsedDate.None? ==>
            var d := FallbackDate(sessionStartDate);
            && |d| <= 20 && f[8..8 + |d|] == d
            && forall c :: c in d ==> FilenameChar(c))
  {
    var d := SessionDateForFilename(sessionStartDate, parsedDate);
    assert BuildExport(sessionId, sessionStartDate, parsedDate, matches, players, iso).filename == Filename(d, sessionId);
    FilenameParts(d, sessionId);
  }

  /** The fallback date is stable: sanitising it again changes nothing. */
  lemma FallbackDateIdempotent(startDate: string)
    ensures FallbackDate(FallbackDate(startDate)) == FallbackDate(startDate)
  {
  }
}
