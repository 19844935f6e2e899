/** Class `GoogleSheetDataAccess` (include/GoogleSheetDataAccess.hpp): the
    spreadsheet backend of the FAQ. Reading decodes the sheet's value matrix into
    rows; writing appends one row with a bearer token that is cached for 30 minutes.

    Each HTTP exchange is a parameter: the reply of the batchGet read, the reply of
    the OAuth2 token endpoint and the status of the append call. The JSON parser
    is not modelled: a reply carries the fields the code reads from its body. */
module GoogleSheet {
  import opened Outcomes
  import opened Tools

  /** Lifetime of the bearer token, in minutes. */
  const TokenMinutes: int := 30

  /** Status column value of an answered and published question. */
  const StatusValidated: string := "Validé"

  /** One question and answer (`FAQRow`), the fields the sheet fills. */
  datatype FAQRow = FAQRow(rowid: int, question: string, reponse: string, reponseValide: bool)

  /** Answer of `GET .../values:batchGet`: its body, and the string matrix the
      body holds at `valueRanges[0].values` (empty when that path is absent). */
  datatype SheetReply = SheetReply(body: string, values: seq<seq<string>>)

  /** Answer of the OAuth2 token endpoint: its body, and the `access_token` field. */
  datatype TokenReply = TokenReply(body: string, accessToken: string)

  /** A JSON cell of the appended row. */
  datatype Cell = Number(n: int) | Text(s: string)

  /** The `:append` call: URL path, then the JSON body's `range`, `majorDimension`
      and `values`, and the `Authorization` header. */
  datatype AppendRequest = AppendRequest(path: string, range: string, majorDimension: string,
                                         values: seq<seq<Cell>>, authorization: string)

  // ------------------------------------------------------------------------
  // getAll: decoding the value matrix
  // ------------------------------------------------------------------------

  /** A data row the loop processes without an uncaught JSON error. Indexing a
      row past its end pads it with null, and only turning null into a string
      throws: so column 0 must exist, and a row whose id parses must hold the
      question and the answer. A missing status column reads as null, which is
      not "Validé". */
  predicate RowDecodable(line: seq<string>)
  {
    |line| >= 1 && (Stoi(line[0]).Success? ==> |line| >= 3)
  }

  /** The status column holds "Validé"; a row without that column is not validated. */
  predicate StatusIsValidated(line: seq<string>)
  {
    |line| >= 4 && line[3] == StatusValidated
  }

  predicate RowsDecodable(lines: seq<seq<string>>)
  {
    forall i :: 0 <= i < |lines| ==> RowDecodable(lines[i])
  }

  /** A reply `getAll` handles: every data row below the header is decodable. */
  predicate SheetDecodable(reply: SheetReply)
  {
    reply.body != "" ==> forall i :: 1 <= i < |reply.values| ==> RowDecodable(reply.values[i])
  }

  /** One row: the FAQRow it gives, or nothing when its id column does not parse. */
  function DecodeLine(line: seq<string>): (rows: seq<FAQRow>)
    requires RowDecodable(line)
    ensures |rows| <= 1
    ensures |line| < 4 ==> forall r | r in rows :: !r.reponseValide
  {
    match Stoi(line[0])
    case Success(id) => [FAQRow(id, line[1], line[2], StatusIsValidated(line))]
    case Failure(_) => []
  }

  /** The rows kept, in order, from a list of data rows. */
  function DecodeRows(lines: seq<seq<string>>): (rows: seq<FAQRow>)
    requires RowsDecodable(lines)
    ensures |rows| <= |lines|
  {
    if lines == [] then []
    else DecodeRows(lines[..|lines| - 1]) + DecodeLine(lines[|lines| - 1])
  }

  /** Decoding respects concatenation: rows keep their order, and no row affects
      whether another is kept. */
  lemma {:induction false} DecodeRowsAppend(a: seq<seq<string>>, b: seq<seq<string>>)
    requires RowsDecodable(a) && RowsDecodable(b)
    ensures RowsDecodable(a + b)
    ensures DecodeRows(a + b) == DecodeRows(a) + DecodeRows(b)
  {
    assert RowsDecodable(a + b) by {
      forall i | 0 <= i < |a + b| ensures RowDecodable((a + b)[i]) {
        if i >= |a| { assert (a + b)[i] == b[i - |a|]; }
      }
    }
    if b == [] {
      assert a + b == a;
    } else {
      var n := |b| - 1;
      assert RowsDecodable(b[..n]) by {
        forall i | 0 <= i < n ensures RowDecodable(b[..n][i]) {
          assert b[..n][i] == b[i];
        }
      }
      DecodeRowsAppend(a, b[..n]);
      assert (a + b)[..|a + b| - 1] == a + b[..n];
      assert (a + b)[|a + b| - 1] == b[n];
    }
  }

  /** Every row the decoder keeps comes from one input row, found at index `i`. */
  lemma {:induction false} DecodeRowsSource(lines: seq<seq<string>>, r: FAQRow) returns (i: int)
    requires RowsDecodable(lines)
    requires r in DecodeRows(lines)
    ensures 0 <= i < |lines| && r in DecodeLine(lines[i])
  {
    var n := |lines| - 1;
    var init := lines[..n];
    assert RowsDecodable(init) by {
      forall j | 0 <= j < n ensures RowDecodable(init[j]) {
        assert init[j] == lines[j];
      }
    }
    if r in DecodeRows(init) {
      i := DecodeRowsSource(init, r);
      assert init[i] == lines[i];
    } else {
      i := n;
    }
  }

  /** Every row a line decodes to is kept by the decoder, whatever surrounds it. */
  lemma DecodeRowsKeeps(lines: seq<seq<string>>, i: int)
    requires RowsDecodable(lines)
    requires 0 <= i < |lines|
    ensures forall r :: r in DecodeLine(lines[i]) ==> r in DecodeRows(lines)
  {
    var before, line, after := lines[..i], [lines[i]], lines[i + 1..];
    assert lines == before + (line + after);
    assert RowsDecodable(before) by {
      forall j | 0 <= j < |before| ensures RowDecodable(before[j]) {
        assert before[j] == lines[j];
      }
    }
    assert RowsDecodable(after) by {
      forall j | 0 <= j < |after| ensures RowDecodable(after[j]) {
        assert after[j] == lines[i + 1 + j];
      }
    }
    DecodeRowsAppend(line, after);
    DecodeRowsAppend(before, line + after);
    assert line[..0] == [];
    assert DecodeRows(line) == DecodeLine(lines[i]);
  }

  /** The row `getAll` builds from a line whose id parses. */
  function RowOfLine(line: seq<string>): FAQRow
    requires |line| >= 3 && Stoi(line[0]).Success?
  {
    FAQRow(Stoi(line[0]).value, line[1], line[2], StatusIsValidated(line))
  }

  /** Every line whose id parses yields a kept row: its id, question, answer and
      whether its status column says "Validé". */
  lemma DecodeRowsKeepsParsed(lines: seq<seq<string>>, i: int)
    requires RowsDecodable(lines) && 0 <= i < |lines| && Stoi(lines[i][0]).Success?
    ensures RowOfLine(lines[i]) in DecodeRows(lines)
  {
    DecodeRowsKeeps(lines, i);
  }

  /** Every kept row is the row of some line whose id parses. */
  lemma DecodeRowsFromParsed(lines: seq<seq<string>>, r: FAQRow) returns (i: int)
    requires RowsDecodable(lines) && r in DecodeRows(lines)
    ensures 0 <= i < |lines| && Stoi(lines[i][0]).Success?
    ensures r == RowOfLine(lines[i])
  {
    i := DecodeRowsSource(lines, r);
  }

  /** The rows kept are exactly the rows of the lines whose id parses. */
  lemma DecodeRowsMembership(lines: seq<seq<string>>, r: FAQRow)
    requires RowsDecodable(lines)
    ensures r in DecodeRows(lines) <==>
              exists i :: 0 <= i < |lines| && Stoi(lines[i][0]).Success? && r == RowOfLine(lines[i])
  {
    if r in DecodeRows(lines) {
      var i := DecodeRowsFromParsed(lines, r);
    }
    if exists i :: 0 <= i < |lines| && Stoi(lines[i][0]).Success? && r == RowOfLine(lines[i]) {
      var i :| 0 <= i < |lines| && Stoi(lines[i][0]).Success? && r == RowOfLine(lines[i]);
      DecodeRowsKeepsParsed(lines, i);
    }
  }

  /** The rows below the header of a decodable reply are decodable. */
  lemma DataRowsDecodable(reply: SheetReply)
    requires SheetDecodable(reply) && reply.body != "" && reply.values != []
    ensures RowsDecodable(reply.values[1..])
  {
    forall i | 0 <= i < |reply.values[1..]|
      ensures RowDecodable(reply.values[1..][i])
    {
      assert reply.values[1..][i] == reply.values[i + 1];
    }
  }

  /** Decoding one more row appends what that row decodes to. */
  lemma DecodeRowsStep(lines: seq<seq<string>>, i: int)
    requires RowsDecodable(lines) && 0 <= i < |lines|
    ensures RowsDecodable(lines[..i]) && RowsDecodable(lines[..i + 1])
    ensures DecodeRows(lines[..i + 1]) == DecodeRows(lines[..i]) + DecodeLine(lines[i])
  {
    assert forall j :: 0 <= j < i + 1 ==> lines[..i + 1][j] == lines[j];
    assert lines[..i + 1][..i] == lines[..i];
  }

  /** `getAll` given the batchGet reply: `None` exactly for an empty body; an
      empty value list gives an empty list; otherwise the header row is dropped
      and the data rows decoded. */
  function DecodeSheet(reply: SheetReply): (rows: Option<seq<FAQRow>>)
    requires SheetDecodable(reply)
    ensures rows.None? <==> reply.body == ""
    ensures reply.body != "" && |reply.values| <= 1 ==> rows == Some([])
  {
    if reply.body == "" then None
    else if reply.values == [] then Some([])
    else
      DataRowsDecodable(reply);
      Some(DecodeRows(reply.values[1..]))
  }

  /** The id column "1" parses to 1. */
  lemma StoiOne()
    ensures Stoi("1") == Success(1)
  {
    StoiIntToString("", 1, "");
    assert "" + IntToString(1) + "" == "1";
  }

  /** A validated row with id "1" is kept; a row with id "x" is skipped without
      failing the batch; a row without a status column is kept as not validated;
      a row with id "1" and no answer column is not decodable. */
  lemma DecodeLinesExample()
    ensures RowDecodable(["1", "Q1", "A1", "Validé"]) && RowDecodable(["x", "Q2", "", "Rédaction"])
    ensures DecodeLine(["1", "Q1", "A1", "Validé"]) == [FAQRow(1, "Q1", "A1", true)]
    ensures DecodeLine(["x", "Q2", "", "Rédaction"]) == []
    ensures RowDecodable(["1", "Q", "A"]) && DecodeLine(["1", "Q", "A"]) == [FAQRow(1, "Q", "A", false)]
    ensures !RowDecodable(["1", "Q"]) && RowDecodable(["x"])
  {
    StoiOne();
    StoiNoDigit("x");
  }

  /** A sheet with a header and two decodable rows gives what the two rows give. */
  lemma DecodeTwoRows(reply: SheetReply)
    requires reply.body != "" && |reply.values| == 3
    requires RowDecodable(reply.values[1]) && RowDecodable(reply.values[2])
    ensures SheetDecodable(reply)
    ensures DecodeSheet(reply) == Some(DecodeLine(reply.values[1]) + DecodeLine(reply.values[2]))
  {
    var a, b := reply.values[1], reply.values[2];
    assert reply.values[1..] == [a, b];
    DecodeRowsPair(a, b);
  }

  /** Two decodable rows give what each gives, in order. */
  lemma DecodeRowsPair(a: seq<string>, b: seq<string>)
    requires RowDecodable(a) && RowDecodable(b)
    ensures RowsDecodable([a, b])
    ensures DecodeRows([a, b]) == DecodeLine(a) + DecodeLine(b)
  {
    assert [a, b][..1] == [a];
    assert [a][..0] == [];
  }

  /** The sheet of the example above, below its header row, decodes to the one
      validated row. */
  lemma DecodeSheetExample(reply: SheetReply)
    requires reply.body != "" && |reply.values| == 3
    requires reply.values[1] == ["1", "Q1", "A1", "Validé"]
    requires reply.values[2] == ["x", "Q2", "", "Rédaction"]
    ensures SheetDecodable(reply)
    ensures DecodeSheet(reply) == Some([FAQRow(1, "Q1", "A1", true)])
  {
    DecodeLinesExample();
    DecodeTwoRows(reply);
    assert [FAQRow(1, "Q1", "A1", true)] + [] == [FAQRow(1, "Q1", "A1", true)];
  }

  // ------------------------------------------------------------------------
  // getAllValidated: the filter
  // ------------------------------------------------------------------------

  /** `std::erase_if(rows, !REPONSE_VALIDE)`: the validated rows, in order. */
  function OnlyValidated(rows: seq<FAQRow>): (kept: seq<FAQRow>)
    ensures |kept| <= |rows|
    ensures forall k :: 0 <= k < |kept| ==> kept[k].reponseValide
  {
    if rows == [] then []
    else OnlyValidated(rows[..|rows| - 1]) + (if rows[|rows| - 1].reponseValide then [rows[|rows| - 1]] else [])
  }

  /** A row is kept exactly when it is present and validated. */
  lemma {:induction false} OnlyValidatedMembership(rows: seq<FAQRow>, r: FAQRow)
    ensures r in OnlyValidated(rows) <==> r in rows && r.reponseValide
  {
    if rows != [] {
      var n := |rows| - 1;
      OnlyValidatedMembership(rows[..n], r);
      assert rows == rows[..n] + [rows[n]];
    }
  }

  /** The filter preserves order: it respects concatenation. */
  lemma {:induction false} OnlyValidatedAppend(a: seq<FAQRow>, b: seq<FAQRow>)
    ensures OnlyValidated(a + b) == OnlyValidated(a) + OnlyValidated(b)
  {
    if b == [] {
      assert a + b == a;
    } else {
      var n := |b| - 1;
      OnlyValidatedAppend(a, b[..n]);
      assert (a + b)[..|a + b| - 1] == a + b[..n];
      assert (a + b)[|a + b| - 1] == b[n];
    }
  }

  /** Filtering twice is filtering once. */
  lemma {:induction false} OnlyValidatedIdempotent(rows: seq<FAQRow>)
    ensures OnlyValidated(OnlyValidated(rows)) == OnlyValidated(rows)
  {
    if rows != [] {
      var n := |rows| - 1;
      OnlyValidatedIdempotent(rows[..n]);
      OnlyValidatedAppend(OnlyValidated(rows[..n]), if rows[n].reponseValide then [rows[n]] else []);
      if rows[n].reponseValide {
        assert [rows[n]][..0] == [];
      }
    }
  }

  /** `getAllValidated` given the batchGet reply: `None` exactly for an empty
      body, otherwise validated rows only. */
  function ValidatedSheet(reply: SheetReply): (rows: Option<seq<FAQRow>>)
    requires SheetDecodable(reply)
    ensures rows.None? <==> reply.body == ""
    ensures rows.Some? ==> forall k :: 0 <= k < |rows.value| ==> rows.value[k].reponseValide
  {
    match DecodeSheet(reply)
    case None => None
    case Some(all) => Some(OnlyValidated(all))
  }

  // ------------------------------------------------------------------------
  // createQuestion: the range and the row
  // ------------------------------------------------------------------------

  /** "%20" starts at index i of s. */
  predicate EscapedSpaceAt(s: string, i: int)
  {
    0 <= i && i + 3 <= |s| && s[i] == '%' && s[i + 1] == '2' && s[i + 2] == '0'
  }

  predicate HasNoEscapedSpace(s: string)
  {
    forall i :: 0 <= i < |s| ==> !EscapedSpaceAt(s, i)
  }

  /** `std::regex_replace(s, std::regex("%20"), " ")`: every occurrence, scanned
      left to right without overlap, becomes one space. */
  function UnescapeSpaces(s: string): (r: string)
    ensures |r| <= |s|
    ensures |s| > 0 ==> |r| > 0 && r[0] == (if EscapedSpaceAt(s, 0) then ' ' else s[0])
  {
    if |s| < 3 then s
    else if EscapedSpaceAt(s, 0) then " " + UnescapeSpaces(s[3..])
    else [s[0]] + UnescapeSpaces(s[1..])
  }

  /** No "%20" is left after the replacement. */
  lemma {:induction false} UnescapeSpacesComplete(s: string)
    ensures HasNoEscapedSpace(UnescapeSpaces(s))
  {
    var r := UnescapeSpaces(s);
    if |s| >= 3 {
      if EscapedSpaceAt(s, 0) {
        var r' := UnescapeSpaces(s[3..]);
        UnescapeSpacesComplete(s[3..]);
        assert r == " " + r';
        forall i | 0 <= i < |r|
          ensures !EscapedSpaceAt(r, i)
        {
          if i > 0 {
            assert EscapedSpaceAt(r, i) ==> EscapedSpaceAt(r', i - 1);
          }
        }
      } else {
        var t := s[1..];
        var r' := UnescapeSpaces(t);
        UnescapeSpacesComplete(t);
        assert r == [s[0]] + r';
        forall i | 0 <= i < |r|
          ensures !EscapedSpaceAt(r, i)
        {
          if i > 0 {
            assert EscapedSpaceAt(r, i) ==> EscapedSpaceAt(r', i - 1);
          } else if s[0] == '%' && r'[0] == '2' && |r'| >= 2 {
            assert t[0] == '2';
            if |t| >= 3 {
              assert r' == [t[0]] + UnescapeSpaces(t[1..]);
              assert r'[1] == (if EscapedSpaceAt(t[1..], 0) then ' ' else t[1]);
            } else {
              assert r' == t;
            }
          }
        }
      }
    }
  }

  /** A string without "%20" is left as it is. */
  lemma {:induction false} UnescapeSpacesIdentity(s: string)
    requires HasNoEscapedSpace(s)
    ensures UnescapeSpaces(s) == s
  {
    if |s| >= 3 {
      var t := s[1..];
      assert HasNoEscapedSpace(t) by {
        forall i | 0 <= i < |t| ensures !EscapedSpaceAt(t, i) {
          assert EscapedSpaceAt(t, i) ==> EscapedSpaceAt(s, i + 1);
        }
      }
      UnescapeSpacesIdentity(t);
      assert !EscapedSpaceAt(s, 0);
    }
  }

  /** Each "%20" becomes exactly one space, and the text around it is replaced
      independently. */
  lemma {:induction false} UnescapeSpacesSplit(a: string, b: string)
    ensures UnescapeSpaces(a + "%20" + b) == UnescapeSpaces(a) + " " + UnescapeSpaces(b)
    decreases |a|
  {
    var s := a + "%20" + b;
    if a == [] {
      assert s == "%20" + b;
      assert EscapedSpaceAt(s, 0);
      assert s[3..] == b;
    } else if EscapedSpaceAt(a, 0) {
      assert EscapedSpaceAt(s, 0);
      assert s[3..] == a[3..] + "%20" + b;
      UnescapeSpacesSplit(a[3..], b);
    } else if |a| < 3 {
      assert !EscapedSpaceAt(s, 0) by {
        if |a| == 1 { assert s[0] == a[0] && s[1] == '%'; }
        else { assert s[0] == a[0] && s[1] == a[1] && s[2] == '%'; }
      }
      assert s[1..] == a[1..] + "%20" + b;
      UnescapeSpacesSplit(a[1..], b);
      assert UnescapeSpaces(a) == a;
      assert UnescapeSpaces(a[1..]) == a[1..];
    } else {
      assert !EscapedSpaceAt(s, 0) by {
        assert s[..3] == a[..3];
      }
      assert s[1..] == a[1..] + "%20" + b;
      UnescapeSpacesSplit(a[1..], b);
    }
  }

  /** Replacing twice is replacing once. */
  lemma UnescapeSpacesIdempotent(s: string)
    ensures UnescapeSpaces(UnescapeSpaces(s)) == UnescapeSpaces(s)
  {
    UnescapeSpacesComplete(s);
    UnescapeSpacesIdentity(UnescapeSpaces(s));
  }

  /** The JSON `range`: the tab name with "%20" turned into spaces, "!", the cells. */
  function AppendRange(tab: string, fields: string): (range: string)
    ensures |range| == |UnescapeSpaces(tab)| + 1 + |fields|
    ensures range[|UnescapeSpaces(tab)|] == '!' && range[|UnescapeSpaces(tab)| + 1..] == fields
  {
    UnescapeSpaces(tab) + "!" + fields
  }

  /** The tab part of the range holds no "%20", and a tab name without one is
      used unchanged. */
  lemma AppendRangeTab(tab: string, fields: string)
    ensures HasNoEscapedSpace(AppendRange(tab, fields)[..|UnescapeSpaces(tab)|])
    ensures HasNoEscapedSpace(tab) ==> AppendRange(tab, fields) == tab + "!" + fields
  {
    assert AppendRange(tab, fields)[..|UnescapeSpaces(tab)|] == UnescapeSpaces(tab);
    UnescapeSpacesComplete(tab);
    if HasNoEscapedSpace(tab) {
      UnescapeSpacesIdentity(tab);
    }
  }

  /** The appended row: number, question, empty answer, status "Rédaction",
      origin "Question issue du site", empty last column. */
  function NewQuestionRow(question: string, numQuestion: U32): (row: seq<Cell>)
    ensures |row| == 6 && row[0] == Number(numQuestion) && row[1] == Text(question)
    ensures row[2] == Text("") && row[3] == Text("Rédaction")
    ensures row[4] == Text("Question issue du site") && row[5] == Text("")
  {
    [Number(numQuestion), Text(question), Text(""), Text("Rédaction"), Text("Question issue du site"), Text("")]
  }

  // ------------------------------------------------------------------------
  // majAccessToken: the bearer-token cache
  // ------------------------------------------------------------------------

  /** The cached bearer token and its expiry (`mAccessToken`, `mAccessTokenTimestamp`). */
  datatype BearerCache = BearerCache(token: string, expiry: int)

  /** The initial cache: no token, expiry 0. */
  const InitialCache: BearerCache := BearerCache("", 0)

  /** A new token is requested when the cached one has expired or is empty. */
  predicate NeedsRefresh(cache: BearerCache, now: int)
    ensures cache.token == "" ==> NeedsRefresh(cache, now)
    ensures cache.token != "" ==> (NeedsRefresh(cache, now) <==> cache.expiry <= now)
  {
    now >= cache.expiry || cache.token == ""
  }

  /** The cache after `majAccessToken`, which reads the clock twice: at `now` to
      test the cached token, and at `replyTime`, once the token endpoint has given
      its `reply`, to date the new token. */
  function AfterRefresh(cache: BearerCache, now: int, replyTime: int, reply: TokenReply): (next: BearerCache)
    ensures !NeedsRefresh(cache, now) ==> next == cache
    ensures reply.body == "" ==> next == cache
    ensures NeedsRefresh(cache, now) && reply.body != "" ==>
              next == BearerCache(reply.accessToken, CurrentTimestamp(replyTime, TokenMinutes))
  {
    if NeedsRefresh(cache, now) && reply.body != ""
    then BearerCache(reply.accessToken, CurrentTimestamp(replyTime, TokenMinutes))
    else cache
  }

  /** The initial state always refreshes; once a non-empty token is obtained, no
      call before 30 minutes after its reply requests another. */
  lemma RefreshThenReuse(now: int, replyTime: int, later: int, laterReplyTime: int,
                         reply: TokenReply, reply2: TokenReply)
    requires reply.body != "" && reply.accessToken != ""
    requires later < CurrentTimestamp(replyTime, TokenMinutes)
    ensures NeedsRefresh(InitialCache, now)
    ensures !NeedsRefresh(AfterRefresh(InitialCache, now, replyTime, reply), later)
    ensures AfterRefresh(AfterRefresh(InitialCache, now, replyTime, reply), later, laterReplyTime, reply2)
            == AfterRefresh(InitialCache, now, replyTime, reply)
  {
  }

  /** Query of the append call: raw values, inserted as new rows. */
  const AppendQuery: string := ":append?valueInputOption=RAW&insertDataOption=INSERT_ROWS"

  class GoogleSheetDataAccess {
    const spreadsheetId: string
    const apiKey: string
    const tab: string
    const privateKey: string
    const serviceAccount: string
    const fields: string

    var accessTokenTimestamp: int
    var accessToken: string

    function Cache(): BearerCache
      reads this
    {
      BearerCache(accessToken, accessTokenTimestamp)
    }

    constructor (spreadsheetId: string, apiKey: string, tab: string, privateKey: string,
                 serviceAccount: string, fields: string)
      ensures this.spreadsheetId == spreadsheetId && this.apiKey == apiKey && this.tab == tab
      ensures this.privateKey == privateKey && this.serviceAccount == serviceAccount
      ensures this.fields == fields
      ensures Cache() == InitialCache
    {
      this.spreadsheetId := spreadsheetId;
      this.apiKey := apiKey;
      this.tab := tab;
      this.privateKey := privateKey;
      this.serviceAccount := serviceAccount;
      this.fields := fields;
      accessTokenTimestamp := 0;
      accessToken := "";
    }

    /** `majAccessToken` with the clock read at `now` for the test and at
        `replyTime` after the token endpoint answered: `requested` tells whether
        the endpoint is called; its `reply` is used only then. */
    method MajAccessToken(now: int, replyTime: int, reply: TokenReply) returns (requested: bool)
      modifies this`accessToken, this`accessTokenTimestamp
      ensures requested == NeedsRefresh(old(Cache()), now)
      ensures Cache() == AfterRefresh(old(Cache()), now, replyTime, reply)
    {
      requested := now >= accessTokenTimestamp || accessToken == "";
      if requested {
        if reply.body != "" {
          accessToken := reply.accessToken;
          accessTokenTimestamp := CurrentTimestamp(replyTime, TokenMinutes);
        }
      }
    }

    /** URL path of the append call. It carries the configured tab text as is;
        for a tab name without "%20" its range segment is the JSON range text. */
    function AppendPath(): (path: string)
      ensures HasNoEscapedSpace(tab) ==>
                path == "/v4/spreadsheets/" + spreadsheetId + "/values/" + AppendRange(tab, fields) + AppendQuery
    {
      AppendRangeTab(tab, fields);
      "/v4/spreadsheets/" + spreadsheetId + "/values/" + tab + "!" + fields + AppendQuery
    }

    /** `createQuestion`: refreshes the token if needed, then appends the new row;
        succeeds exactly on HTTP 200. The question's length is not checked here. */
    method CreateQuestion(question: string, numQuestion: U32, now: int, replyTime: int,
                          tokenReply: TokenReply, appendStatus: int)
      returns (created: bool, request: AppendRequest, tokenRequested: bool)
      modifies this`accessToken, this`accessTokenTimestamp
      ensures tokenRequested == NeedsRefresh(old(Cache()), now)
      ensures Cache() == AfterRefresh(old(Cache()), now, replyTime, tokenReply)
      ensures request == AppendRequest(AppendPath(), AppendRange(tab, fields), "ROWS",
                                       [NewQuestionRow(question, numQuestion)], "Bearer " + accessToken)
      ensures created <==> appendStatus == 200
    {
      tokenRequested := MajAccessToken(now, replyTime, tokenReply);
      var range := UnescapeSpaces(tab) + "!" + fields;
      var row := [Number(numQuestion), Text(question), Text(""), Text("Rédaction"),
                  Text("Question issue du site"), Text("")];
      request := AppendRequest(AppendPath(), range, "ROWS", [row], "Bearer " + accessToken);
      created := appendStatus == 200;
    }

    /** `updateQuestion`: not supported by this backend. */
    method UpdateQuestion(rowid: int, reponse: string, reponseValide: bool) returns (updated: bool)
      ensures !updated
    {
      updated := false;
    }

    /** `deleteQuestion`: not supported by this backend. */
    method DeleteQuestion(rowid: int) returns (deleted: bool)
      ensures !deleted
    {
      deleted := false;
    }

    /** `getAll` given the batchGet reply: erases the header, then decodes row by
        row, skipping rows whose id does not parse. */
    method GetAll(reply: SheetReply) returns (rows: Option<seq<FAQRow>>)
      requires SheetDecodable(reply)
      ensures rows == DecodeSheet(reply)
    {
      if reply.body != "" {
        var retour: seq<FAQRow> := [];
        var lines := reply.values;
        if lines != [] {
          lines := lines[1..];
          DataRowsDecodable(reply);
          for i := 0 to |lines|
            invariant retour == DecodeRows(lines[..i])
          {
            DecodeRowsStep(lines, i);
            var line := lines[i];
            var rowid := Stoi(line[0]);
            if rowid.Success? {
              retour := retour + [FAQRow(rowid.value, line[1], line[2], |line| >= 4 && line[3] == StatusValidated)];
            }
          }
          assert lines[..|lines|] == lines;
        }
        rows := Some(retour);
      } else {
        rows := None;
      }
    }

    /** `getAllValidated`: `getAll` with the non-validated rows erased; `None`
        propagates. */
    method GetAllValidated(reply: SheetReply) returns (rows: Option<seq<FAQRow>>)
      requires SheetDecodable(reply)
      ensures DecodeSheet(reply).None? ==> rows.None?
      ensures DecodeSheet(reply).Some? ==> rows == Some(OnlyValidated(DecodeSheet(reply).value))
      ensures rows == ValidatedSheet(reply)
    {
      var allQR := GetAll(reply);
      if allQR.Some? {
        var vQr := allQR.value;
        vQr := OnlyValidated(vQr);
        rows := Some(vQr);
      } else {
        rows := None;
      }
    }
  }
}
