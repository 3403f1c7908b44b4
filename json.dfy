/**
 * The JSON documents behind `/score` and `/recent` (`GenerateScore`,
 * `GenerateRecent`): the rows a query returns are appended to the document
 * one by one, and the finished text becomes a new asset generation.
 *
 * SQLite is foreign: a query is given as the rows it steps through, or as a
 * failure anywhere between opening the database and closing it.
 * `EscapeJsStringLiteral` is a parameter.
 */
module Json {
  import opened Common
  import opened Bytes
  import opened Nick
  import opened Assets

  /**
   * The two conversions the documents are printed with: `EscapeJsStringLiteral`
   * for nicknames, and `%ld` for numbers (`SignedDecimal` in the generators).
   */
  datatype Fmt = Fmt(escape: seq<uint8> -> seq<uint8>, long: int -> seq<uint8>)

  /** The conversions the generators use: the given escaper and `%ld`. */
  function Printf(escape: seq<uint8> -> seq<uint8>): Fmt {
    Fmt(escape, SignedDecimal)
  }

  /** A row of `SELECT nick, (ip >> 24), COUNT(*) FROM land GROUP BY nick, (ip >> 24)`. */
  datatype ScoreRow = ScoreRow(nick: seq<uint8>, prefix: int, count: int)

  /** A row of `SELECT ip, nick, created FROM land ... ORDER BY created DESC LIMIT 50`. */
  datatype RecentRow = RecentRow(ip: int, nick: seq<uint8>, created: int)

  /** What stepping a prepared statement yields: every row, or an error somewhere. */
  datatype Query<R> = QueryFailed | QueryRows(rows: seq<R>)

  const COMMA_NL: seq<uint8> := Ascii(",\n")
  const NOW_OPEN: seq<uint8> := Ascii("{\n\"now\":[")
  const COMMA: seq<uint8> := Ascii(",")
  const ENTRY_OPEN: seq<uint8> := Ascii("  [")
  const CLOSE_BRACKET: seq<uint8> := Ascii("]")
  const GROUP_OPEN: seq<uint8> := Ascii("\":[\n")
  const SCORE_OPEN: seq<uint8> := Ascii("\"score\":{\n")
  const NEWLINE: seq<uint8> := Ascii("\n")
  const DOC_CLOSE: seq<uint8> := Ascii("}}\n")
  const OPEN_BRACKET: seq<uint8> := Ascii("[")
  const RECENT_OPEN: seq<uint8> := Ascii("\"recent\":[\n")
  const RECENT_CLOSE: seq<uint8> := Ascii("]}\n")
  const QUOTE: seq<uint8> := Ascii("\"")
  /** `],` and a newline: closes a group with another to follow. */
  const BRACKET_COMMA_NL: seq<uint8> := CLOSE_BRACKET + COMMA_NL
  /** `]` and a newline: closes the last group. */
  const GROUP_CLOSE_LAST: seq<uint8> := CLOSE_BRACKET + NEWLINE

  /** `"now":[sec,nsec],` opening both documents. */
  function NowPrefix(f: Fmt, now: Timespec): seq<uint8> {
    NOW_OPEN + f.long(now.sec) + COMMA + f.long(now.nsec) + BRACKET_COMMA_NL
  }

  // ---------------------------------------------------------------------
  // The leaderboard document
  // ---------------------------------------------------------------------

  /**
   * `strlcpy(name2, nick, NICK_MAX + 1)`: the stored nickname read as a C
   * string, cut to at most `NICK_MAX` bytes.
   */
  function Name(r: ScoreRow): (s: seq<uint8>)
    ensures |s| == if |CString(r.nick)| <= NICK_MAX then |CString(r.nick)| else NICK_MAX
    ensures s == r.nick[..|s|]
    ensures forall i | 0 <= i < |s| :: s[i] != 0
  {
    var c := CString(r.nick);
    if |c| <= NICK_MAX then c else c[..NICK_MAX]
  }

  /** A stored `Ali`, NUL, `ce` is read as `Ali`, which is a valid nickname. */
  lemma NameStopsAtNul()
    ensures Name(ScoreRow([0x41, 0x6C, 0x69, 0x00, 0x63, 0x65], 0, 1)) == [0x41, 0x6C, 0x69]
    ensures ValidNick([0x41, 0x6C, 0x69])
  {
    var s: seq<uint8> := [0x41, 0x6C, 0x69, 0x00, 0x63, 0x65];
    var c := CString(s);
    assert |c| == 3 by {
      assert s[0] != 0 && s[1] != 0 && s[2] != 0 && s[3] == 0;
    }
  }

  /** `  [prefix,count]`. */
  function Entry(f: Fmt, r: ScoreRow): seq<uint8> {
    ENTRY_OPEN + f.long(r.prefix) + COMMA + f.long(r.count) + CLOSE_BRACKET
  }

  /** `"nick":[` and a newline, opening one player's list. */
  function GroupHead(f: Fmt, nick: seq<uint8>): seq<uint8> {
    QUOTE + f.escape(nick) + GROUP_OPEN
  }

  /** The state the row loop of `GenerateScore` carries: text so far, `name1`, `namestate`. */
  datatype ScanState = ScanState(text: seq<uint8>, name1: seq<uint8>, open: bool)

  /** One pass of the row loop. */
  function ScanStep(f: Fmt, st: ScanState, r: ScoreRow): ScanState {
    var name2 := Name(r);
    if !ValidNick(name2) then st
    else if st.name1 != name2 then
      var close := if st.open then BRACKET_COMMA_NL else [];
      ScanState(st.text + close + GroupHead(f, name2) + Entry(f, r), name2, true)
    else
      ScanState(st.text + COMMA_NL + Entry(f, r), st.name1, st.open)
  }

  /** The loop state after `rows`, starting from `st`. */
  function Scan(f: Fmt, st: ScanState, rows: seq<ScoreRow>): ScanState {
    if rows == [] then st
    else ScanStep(f, Scan(f, st, rows[..|rows| - 1]), rows[|rows| - 1])
  }

  /** Nothing written, no nickname seen, no group open. */
  const START: ScanState := ScanState([], [], false)

  /** The same state with `p` written before its text. */
  function Shift(p: seq<uint8>, st: ScanState): ScanState {
    ScanState(p + st.text, st.name1, st.open)
  }

  /** The loop never looks back at what it has written. */
  lemma ShiftStep(f: Fmt, p: seq<uint8>, st: ScanState, r: ScoreRow)
    ensures ScanStep(f, Shift(p, st), r) == Shift(p, ScanStep(f, st, r))
  {
    if ValidNick(Name(r)) {
      var e := Entry(f, r);
      if st.name1 != Name(r) {
        var close := if st.open then BRACKET_COMMA_NL else [];
        ConcatAssoc4(p, st.text + close, GroupHead(f, Name(r)), e);
        ConcatAssoc(p, st.text, close);
      } else {
        ConcatAssoc4(p, st.text, COMMA_NL, e);
      }
    }
  }

  lemma {:induction false} ScanShift(f: Fmt, p: seq<uint8>, st: ScanState, rows: seq<ScoreRow>)
    ensures Scan(f, Shift(p, st), rows) == Shift(p, Scan(f, st, rows))
  {
    if rows != [] {
      ScanShift(f, p, st, rows[..|rows| - 1]);
      ShiftStep(f, p, Scan(f, st, rows[..|rows| - 1]), rows[|rows| - 1]);
    }
  }

  /** One player's rows in the leaderboard, under the nickname as truncated. */
  datatype Group = Group(nick: seq<uint8>, rows: seq<ScoreRow>)

  /**
   * The reference reading of the leaderboard: rows whose truncated nickname is
   * invalid are dropped, and runs of consecutive rows with the same nickname
   * form one group.
   */
  function Groups(rows: seq<ScoreRow>): seq<Group> {
    if rows == [] then [] else GroupStep(Groups(rows[..|rows| - 1]), rows[|rows| - 1])
  }

  /** Adds one row to the groups: skipped, appended to the last group, or opening a new one. */
  function GroupStep(gs: seq<Group>, r: ScoreRow): seq<Group> {
    if !ValidNick(Name(r)) then gs
    else if gs != [] && gs[|gs| - 1].nick == Name(r) then
      gs[..|gs| - 1] + [Group(Name(r), gs[|gs| - 1].rows + [r])]
    else gs + [Group(Name(r), [r])]
  }

  /** The rows whose truncated nickname is valid, in order. */
  function ValidRows(rows: seq<ScoreRow>): seq<ScoreRow> {
    if rows == [] then []
    else
      var r := rows[|rows| - 1];
      ValidRows(rows[..|rows| - 1]) + if ValidNick(Name(r)) then [r] else []
  }

  function Flatten(gs: seq<Group>): seq<ScoreRow> {
    if gs == [] then [] else Flatten(gs[..|gs| - 1]) + gs[|gs| - 1].rows
  }

  /** Nonempty groups under valid nicknames, holding only their own rows, neighbours distinct. */
  predicate WellGrouped(gs: seq<Group>) {
    && (forall i | 0 <= i < |gs| :: ValidNick(gs[i].nick) && gs[i].rows != [])
    && (forall i, j | 0 <= i < |gs| && 0 <= j < |gs[i].rows| :: Name(gs[i].rows[j]) == gs[i].nick)
    && (forall i | 0 < i < |gs| :: gs[i - 1].nick != gs[i].nick)
  }

  /** Grouping loses no valid row, adds none, and keeps their order. */
  lemma {:induction false} GroupsFlatten(rows: seq<ScoreRow>)
    ensures Flatten(Groups(rows)) == ValidRows(rows)
  {
    if rows != [] {
      var init := rows[..|rows| - 1];
      var r := rows[|rows| - 1];
      GroupsFlatten(init);
      var gs := Groups(init);
      if ValidNick(Name(r)) {
        if gs != [] && gs[|gs| - 1].nick == Name(r) {
          var n := |gs|;
          var gs' := gs[..n - 1] + [Group(Name(r), gs[n - 1].rows + [r])];
          assert gs'[..n - 1] == gs[..n - 1];
          assert Flatten(gs) == Flatten(gs[..n - 1]) + gs[n - 1].rows;
        } else {
          var gs' := gs + [Group(Name(r), [r])];
          assert gs'[..|gs|] == gs;
        }
      }
    }
  }

  /** Every group is a nonempty run of one valid nickname, and neighbours differ. */
  lemma {:induction false} GroupsWellGrouped(rows: seq<ScoreRow>)
    ensures WellGrouped(Groups(rows))
  {
    if rows != [] {
      var r := rows[|rows| - 1];
      GroupsWellGrouped(rows[..|rows| - 1]);
      var gs := Groups(rows[..|rows| - 1]);
      if ValidNick(Name(r)) {
        if gs != [] && gs[|gs| - 1].nick == Name(r) {
          ExtendWellGrouped(gs, r);
        } else {
          OpenWellGrouped(gs, r);
        }
      }
    }
  }

  lemma ExtendWellGrouped(gs: seq<Group>, r: ScoreRow)
    requires WellGrouped(gs) && gs != [] && gs[|gs| - 1].nick == Name(r) && ValidNick(Name(r))
    ensures WellGrouped(gs[..|gs| - 1] + [Group(Name(r), gs[|gs| - 1].rows + [r])])
  {
    var n := |gs|;
    var gs' := gs[..n - 1] + [Group(Name(r), gs[n - 1].rows + [r])];
    forall i | 0 <= i < n ensures ValidNick(gs'[i].nick) && gs'[i].rows != [] {
      if i < n - 1 { assert gs'[i] == gs[i]; }
    }
    forall i, j | 0 <= i < n && 0 <= j < |gs'[i].rows| ensures Name(gs'[i].rows[j]) == gs'[i].nick {
      if i < n - 1 {
        assert gs'[i] == gs[i];
      } else if j < |gs[n - 1].rows| {
        assert gs'[i].rows[j] == gs[n - 1].rows[j];
      }
    }
    forall i | 0 < i < n ensures gs'[i - 1].nick != gs'[i].nick {
      assert gs'[i - 1] == gs[i - 1] && gs'[i].nick == gs[i].nick;
    }
  }

  lemma OpenWellGrouped(gs: seq<Group>, r: ScoreRow)
    requires WellGrouped(gs) && !(gs != [] && gs[|gs| - 1].nick == Name(r)) && ValidNick(Name(r))
    ensures WellGrouped(gs + [Group(Name(r), [r])])
  {
    var n := |gs|;
    var gs' := gs + [Group(Name(r), [r])];
    forall i | 0 <= i <= n ensures ValidNick(gs'[i].nick) && gs'[i].rows != [] {
      if i < n { assert gs'[i] == gs[i]; }
    }
    forall i, j | 0 <= i <= n && 0 <= j < |gs'[i].rows| ensures Name(gs'[i].rows[j]) == gs'[i].nick {
      if i < n { assert gs'[i] == gs[i]; }
    }
    forall i | 0 < i <= n ensures gs'[i - 1].nick != gs'[i].nick {
      assert gs'[i - 1] == gs[i - 1];
    }
  }

  /** The entries of one group, separated by `,` and a newline. */
  function RenderEntries(f: Fmt, rs: seq<ScoreRow>): seq<uint8> {
    if rs == [] then []
    else if |rs| == 1 then Entry(f, rs[0])
    else RenderEntries(f, rs[..|rs| - 1]) + COMMA_NL + Entry(f, rs[|rs| - 1])
  }

  function RenderGroup(f: Fmt, g: Group): seq<uint8> {
    GroupHead(f, g.nick) + RenderEntries(f, g.rows) + CLOSE_BRACKET
  }

  /** The groups, separated by `,` and a newline. */
  function RenderGroups(f: Fmt, gs: seq<Group>): seq<uint8> {
    if gs == [] then []
    else if |gs| == 1 then RenderGroup(f, gs[0])
    else RenderGroups(f, gs[..|gs| - 1]) + COMMA_NL + RenderGroup(f, gs[|gs| - 1])
  }

  /** The groups with the last one's closing bracket still to come. */
  function RenderOpen(f: Fmt, gs: seq<Group>): seq<uint8> {
    if gs == [] then []
    else
      var g := gs[|gs| - 1];
      (if |gs| == 1 then [] else RenderGroups(f, gs[..|gs| - 1]) + COMMA_NL)
        + GroupHead(f, g.nick) + RenderEntries(f, g.rows)
  }

  /** The leaderboard object as the reference reading lays it out. */
  function ScoreBody(f: Fmt, rows: seq<ScoreRow>): seq<uint8> {
    var gs := Groups(rows);
    SCORE_OPEN + RenderGroups(f, gs) + (if gs == [] then [] else NEWLINE) + DOC_CLOSE
  }

  /** Closing the last open group completes the rendering. */
  lemma {:induction false} RenderOpenClosed(f: Fmt, gs: seq<Group>)
    requires gs != []
    ensures RenderOpen(f, gs) + CLOSE_BRACKET == RenderGroups(f, gs)
  {
    var g := gs[|gs| - 1];
    var h, es := GroupHead(f, g.nick), RenderEntries(f, g.rows);
    if |gs| == 1 {
      assert RenderOpen(f, gs) == [] + h + es;
      assert [] + h + es == h + es;
    } else {
      ConcatAssoc(RenderGroups(f, gs[..|gs| - 1]) + COMMA_NL, h + es, CLOSE_BRACKET);
      ConcatAssoc(RenderGroups(f, gs[..|gs| - 1]) + COMMA_NL, h, es);
    }
  }

  /** The loop state `st` has written the groups `gs`, the last one still open. */
  predicate Mirrors(f: Fmt, st: ScanState, gs: seq<Group>) {
    && (st.open <==> gs != [])
    && (st.open ==> st.name1 == gs[|gs| - 1].nick && gs[|gs| - 1].rows != [])
    && (!st.open ==> st.name1 == [])
    && st.text == RenderOpen(f, gs)
  }

  /** A row continuing the current nickname adds `,` and its entry to the open group. */
  lemma ExtendMirrors(f: Fmt, st: ScanState, gs: seq<Group>, r: ScoreRow)
    requires Mirrors(f, st, gs) && ValidNick(Name(r))
    requires gs != [] && gs[|gs| - 1].nick == Name(r)
    ensures Mirrors(f, ScanStep(f, st, r), GroupStep(gs, r))
  {
    var n := |gs|;
    var g := gs[n - 1];
    var e := Entry(f, r);
    var gs' := gs[..n - 1] + [Group(Name(r), g.rows + [r])];
    var p := if n == 1 then [] else RenderGroups(f, gs[..n - 1]) + COMMA_NL;
    assert gs'[..n - 1] == gs[..n - 1];
    assert (g.rows + [r])[..|g.rows|] == g.rows;
    assert RenderEntries(f, g.rows + [r]) == RenderEntries(f, g.rows) + COMMA_NL + e;
    ConcatAssoc4(p + GroupHead(f, Name(r)), RenderEntries(f, g.rows), COMMA_NL, e);
  }

  /** A row with a new nickname closes the open group, if any, and opens its own. */
  lemma OpenMirrors(f: Fmt, st: ScanState, gs: seq<Group>, r: ScoreRow)
    requires Mirrors(f, st, gs) && ValidNick(Name(r))
    requires !(gs != [] && gs[|gs| - 1].nick == Name(r))
    ensures Mirrors(f, ScanStep(f, st, r), GroupStep(gs, r))
  {
    assert |Name(r)| >= 1;
    if gs == [] {
      OpenFirstMirrors(f, st, r);
    } else {
      OpenNextMirrors(f, st, gs, r);
    }
  }

  lemma OpenFirstMirrors(f: Fmt, st: ScanState, r: ScoreRow)
    requires Mirrors(f, st, []) && ValidNick(Name(r))
    ensures Mirrors(f, ScanStep(f, st, r), GroupStep([], r))
  {
    var h, e := GroupHead(f, Name(r)), Entry(f, r);
    assert st.name1 == [] != Name(r);
    assert ScanStep(f, st, r) == ScanState([] + [] + h + e, Name(r), true);
    assert GroupStep([], r) == [Group(Name(r), [r])];
  }

  lemma OpenNextMirrors(f: Fmt, st: ScanState, gs: seq<Group>, r: ScoreRow)
    requires Mirrors(f, st, gs) && ValidNick(Name(r))
    requires gs != [] && gs[|gs| - 1].nick != Name(r)
    ensures Mirrors(f, ScanStep(f, st, r), GroupStep(gs, r))
  {
    var h, e := GroupHead(f, Name(r)), Entry(f, r);
    assert ScanStep(f, st, r) == ScanState(st.text + BRACKET_COMMA_NL + h + e, Name(r), true);
    assert GroupStep(gs, r) == gs + [Group(Name(r), [r])];
    OpenNextText(f, gs, Group(Name(r), [r]));
  }

  /** Opening a group after others: close the last with `],` and a newline, then the new head. */
  lemma OpenNextText(f: Fmt, gs: seq<Group>, g: Group)
    requires gs != [] && |g.rows| == 1
    ensures RenderOpen(f, gs + [g])
      == RenderOpen(f, gs) + BRACKET_COMMA_NL + GroupHead(f, g.nick) + Entry(f, g.rows[0])
  {
    var gs' := gs + [g];
    var h := GroupHead(f, g.nick);
    assert gs'[..|gs|] == gs;
    assert RenderOpen(f, gs') == RenderGroups(f, gs) + COMMA_NL + h + Entry(f, g.rows[0]);
    RenderOpenClosed(f, gs);
    ConcatAssoc4(RenderOpen(f, gs), CLOSE_BRACKET, COMMA_NL, h);
  }

  /**
   * The row loop writes exactly the reference rendering: its text is the
   * groups so far with the last one open, its `namestate` says whether any
   * group was opened, and its `name1` is the last group's nickname.
   */
  lemma {:induction false} ScanRendersGroups(f: Fmt, rows: seq<ScoreRow>)
    ensures Mirrors(f, Scan(f, START, rows), Groups(rows))
  {
    if rows != [] {
      var init := rows[..|rows| - 1];
      var r := rows[|rows| - 1];
      ScanRendersGroups(f, init);
      var st, gs := Scan(f, START, init), Groups(init);
      if !ValidNick(Name(r)) {
      } else if gs != [] && gs[|gs| - 1].nick == Name(r) {
        ExtendMirrors(f, st, gs, r);
      } else {
        OpenMirrors(f, st, gs, r);
      }
    }
  }

  /**
   * The body of `GenerateScore`: the `now` stamp, then for each row with a
   * valid (truncated) nickname either a new `"nick":[` group, closing the
   * previous one, or a `,` continuing the current one, then the entry; the
   * last group and the object are closed at the end.
   */
  method ScoreDocument(f: Fmt, now: Timespec, rows: seq<ScoreRow>) returns (doc: seq<uint8>)
    ensures doc == NowPrefix(f, now) + ScoreBody(f, rows)
  {
    var head := NowPrefix(f, now) + SCORE_OPEN;
    doc := head;
    var name1: seq<uint8> := [];
    var namestate := false;
    var i := 0;
    assert ScanState(doc, name1, namestate) == Shift(head, START);
    while i < |rows|
      invariant 0 <= i <= |rows|
      invariant ScanState(doc, name1, namestate) == Scan(f, Shift(head, START), rows[..i])
    {
      assert rows[..i + 1][..i] == rows[..i];
      doc, name1, namestate := ScoreRowPass(f, doc, name1, namestate, rows[i]);
      i := i + 1;
    }
    assert rows[..i] == rows;
    ScoreCloses(f, now, rows);
    if namestate {
      doc := doc + GROUP_CLOSE_LAST;
    }
    doc := doc + DOC_CLOSE;
  }

  /** What the loop of `GenerateScore` leaves, closed as its tail closes it, is the document. */
  lemma ScoreCloses(f: Fmt, now: Timespec, rows: seq<ScoreRow>)
    ensures var st := Scan(f, Shift(NowPrefix(f, now) + SCORE_OPEN, START), rows);
      (if st.open then st.text + GROUP_CLOSE_LAST else st.text) + DOC_CLOSE == NowPrefix(f, now) + ScoreBody(f, rows)
  {
    var head := NowPrefix(f, now) + SCORE_OPEN;
    var st := Scan(f, Shift(head, START), rows);
    ScanShift(f, head, START, rows);
    ScanRendersGroups(f, rows);
    var gs := Groups(rows);
    var tail := if st.open then GROUP_CLOSE_LAST else [];
    if st.open {
      RenderOpenClosed(f, gs);
    } else {
      assert st.text == st.text + tail;
    }
    var nl := if gs == [] then [] else NEWLINE;
    assert Scan(f, START, rows).text + tail == RenderGroups(f, gs) + nl;
    Assemble(NowPrefix(f, now), SCORE_OPEN, Scan(f, START, rows).text, tail, RenderGroups(f, gs), nl, DOC_CLOSE);
  }

  /** One pass of the row loop of `GenerateScore`, on its variables `data`, `name1` and `namestate`. */
  method ScoreRowPass(f: Fmt, doc: seq<uint8>, name1: seq<uint8>, namestate: bool, r: ScoreRow)
    returns (doc': seq<uint8>, name1': seq<uint8>, namestate': bool)
    ensures ScanState(doc', name1', namestate') == ScanStep(f, ScanState(doc, name1, namestate), r)
  {
    doc', name1', namestate' := doc, name1, namestate;
    var name2 := Name(r);
    var valid := IsValidNick(name2);
    if valid {
      if name1 != name2 {
        if namestate {
          doc' := doc' + BRACKET_COMMA_NL;
        } else {
          assert doc' + [] == doc';
        }
        namestate' := true;
        doc' := doc' + GroupHead(f, name2);
        name1' := name2;
      } else {
        doc' := doc' + COMMA_NL;
      }
      doc' := doc' + Entry(f, r);
    }
  }

  lemma Assemble(a: seq<uint8>, b: seq<uint8>, c: seq<uint8>, d: seq<uint8>, p: seq<uint8>, q: seq<uint8>, e: seq<uint8>)
    requires c + d == p + q
    ensures a + b + c + d + e == a + (b + p + q + e)
  {
    calc {
      a + b + c + d + e;
      == { ConcatAssoc(a + b, c, d); }
      a + b + (p + q) + e;
      == { ConcatAssoc(b, p, q); ConcatAssoc(a, b, p + q); }
      a + (b + p + q) + e;
      == { ConcatAssoc(a, b + p + q, e); }
      a + (b + p + q + e);
    }
  }

  // ---------------------------------------------------------------------
  // The recent-activity document
  // ---------------------------------------------------------------------

  /** `[ip,"nick",created]`, the nickname read as a C string. */
  function RecentEntry(f: Fmt, r: RecentRow): seq<uint8> {
    OPEN_BRACKET + f.long(r.ip) + COMMA + QUOTE + f.escape(CString(r.nick)) + QUOTE
      + COMMA + f.long(r.created) + CLOSE_BRACKET
  }

  /** The entries, separated by `,` and a newline. */
  function RecentEntries(f: Fmt, rows: seq<RecentRow>): seq<uint8> {
    if rows == [] then []
    else if |rows| == 1 then RecentEntry(f, rows[0])
    else RecentEntries(f, rows[..|rows| - 1]) + COMMA_NL + RecentEntry(f, rows[|rows| - 1])
  }

  /**
   * The list is a join: the entries of two runs of rows, one after the other,
   * are the two lists with one `,` and a newline between them.
   */
  lemma {:induction false} RecentEntriesAppend(f: Fmt, a: seq<RecentRow>, b: seq<RecentRow>)
    requires a != [] && b != []
    ensures RecentEntries(f, a + b) == RecentEntries(f, a) + COMMA_NL + RecentEntries(f, b)
    decreases |b|
  {
    var ab := a + b;
    var e := RecentEntry(f, b[|b| - 1]);
    var init := b[..|b| - 1];
    assert ab[..|ab| - 1] == a + init && ab[|ab| - 1] == b[|b| - 1];
    assert RecentEntries(f, ab) == RecentEntries(f, a + init) + COMMA_NL + e;
    if |b| == 1 {
      assert a + init == a;
    } else {
      RecentEntriesAppend(f, a, init);
      var x, y := RecentEntries(f, a), RecentEntries(f, init);
      assert RecentEntries(f, b) == y + COMMA_NL + e;
      calc {
        RecentEntries(f, ab);
        x + COMMA_NL + y + COMMA_NL + e;
        == { ConcatAssoc4(x + COMMA_NL, y, COMMA_NL, e); }
        x + COMMA_NL + (y + COMMA_NL + e);
      }
    }
  }

  /**
   * The body of `GenerateRecent`: every row, in query order and without any
   * nickname filtering, one entry each, separated by `,` and a newline.
   */
  method RecentDocument(f: Fmt, now: Timespec, rows: seq<RecentRow>) returns (doc: seq<uint8>)
    ensures doc == NowPrefix(f, now) + RECENT_OPEN + RecentEntries(f, rows) + RECENT_CLOSE
  {
    var head := NowPrefix(f, now) + RECENT_OPEN;
    doc := head;
    var once := false;
    var i := 0;
    while i < |rows|
      invariant 0 <= i <= |rows|
      invariant once <==> i > 0
      invariant doc == head + RecentEntries(f, rows[..i])
    {
      ghost var body := RecentEntries(f, rows[..i]);
      ghost var e := RecentEntry(f, rows[i]);
      assert rows[..i + 1][..i] == rows[..i];
      if once {
        doc := doc + COMMA_NL;
        doc := doc + RecentEntry(f, rows[i]);
        ConcatAssoc4(head, body, COMMA_NL, e);
        assert RecentEntries(f, rows[..i + 1]) == body + COMMA_NL + e;
      } else {
        once := true;
        doc := doc + RecentEntry(f, rows[i]);
        assert RecentEntries(f, rows[..i + 1]) == e;
      }
      i := i + 1;
    }
    assert rows[..i] == rows;
    doc := doc + RECENT_CLOSE;
  }

  // ---------------------------------------------------------------------
  // The generators
  // ---------------------------------------------------------------------

  const JSON_TYPE: seq<uint8> := Ascii("application/json")
  const SCORE_CACHE: seq<uint8> := Ascii("max-age=60, must-revalidate")
  const RECENT_CACHE: seq<uint8> := Ascii("max-age=0, must-revalidate")

  /**
   * `GenerateScore(out)`: a database failure yields nothing; otherwise a JSON
   * asset whose generation is built from the leaderboard document at `now`.
   */
  method GenerateScore(env: Env, escape: seq<uint8> -> seq<uint8>, now: Timespec, query: Query<ScoreRow>)
    returns (out: Option<Built>)
    ensures out.None? <==> query.QueryFailed?
    ensures out.Some? ==> out.value.contentType == JSON_TYPE && out.value.cache == SCORE_CACHE
    ensures out.Some? ==> out.value.gen == Build(env, NowPrefix(Printf(escape), now) + ScoreBody(Printf(escape), query.rows), now)
    ensures out.Some? ==> Coherent(env, out.value.gen)
  {
    if query.QueryFailed? {
      return None;
    }
    var doc := ScoreDocument(Printf(escape), now, query.rows);
    out := Some(Built(JSON_TYPE, SCORE_CACHE, Build(env, doc, now)));
  }

  /**
   * `GenerateRecent(out)`: a database failure yields nothing; otherwise a
   * JSON asset whose generation is built from the recent-claims document.
   */
  method GenerateRecent(env: Env, escape: seq<uint8> -> seq<uint8>, now: Timespec, query: Query<RecentRow>)
    returns (out: Option<Built>)
    ensures out.None? <==> query.QueryFailed?
    ensures out.Some? ==> out.value.contentType == JSON_TYPE && out.value.cache == RECENT_CACHE
    ensures out.Some? ==> out.value.gen == Build(env,
      NowPrefix(Printf(escape), now) + RECENT_OPEN + RecentEntries(Printf(escape), query.rows) + RECENT_CLOSE, now)
    ensures out.Some? ==> Coherent(env, out.value.gen)
  {
    if query.QueryFailed? {
      return None;
    }
    var doc := RecentDocument(Printf(escape), now, query.rows);
    out := Some(Built(JSON_TYPE, RECENT_CACHE, Build(env, doc, now)));
  }
}
