/**
 Inserting many rows: `DBInsert` joins rows into one text and `execute` cuts that text into queries of bounded
 size. The cut looks for the text between two rows, so it is about characters, not about rows.
 */
module Batches {
  import opened Common

  const MAX_QUERY_SIZE := 8 * 1024 * 1024

  // ---------------------------------------------------------------- rows as text

  /** Rows in parentheses, with commas between them. */
  function Joined(rows: seq<string>): string {
    if rows == [] then ""
    else if |rows| == 1 then "(" + rows[0] + ")"
    else "(" + rows[0] + ")," + Joined(rows[1..])
  }

  function Flatten(groups: seq<seq<string>>): seq<string> {
    if groups == [] then [] else groups[0] + Flatten(groups[1..])
  }

  /** The characters `),(` stand at `p`. */
  predicate Between(text: string, p: nat) {
    p + 2 < |text| && text[p] == ')' && text[p + 1] == ',' && text[p + 2] == '('
  }

  /** No row contains `),(`. */
  ghost predicate Plain(rows: seq<string>) {
    forall i, p: nat | 0 <= i < |rows| :: !Between(rows[i], p)
  }

  lemma {:induction false} JoinedSplit(rows: seq<string>, k: nat)
    requires 0 < k < |rows|
    ensures Joined(rows) == Joined(rows[..k]) + "," + Joined(rows[k..])
  {
    if k == 1 {
      assert rows[..1] == [rows[0]];
    } else {
      JoinedSplit(rows[1..], k - 1);
      assert rows[..k][1..] == rows[1..][..k - 1];
      assert rows[k..] == rows[1..][k - 1..];
      assert rows[..k][0] == rows[0];
    }
  }

  lemma JoinedAdd(rows: seq<string>, row: string)
    ensures Joined(rows + [row]) == if rows == [] then "(" + row + ")" else Joined(rows) + "," + ("(" + row + ")")
  {
    if rows != [] {
      JoinedSplit(rows + [row], |rows|);
      assert (rows + [row])[..|rows|] == rows && (rows + [row])[|rows|..] == [row];
    }
  }

  lemma JoinedEnds(rows: seq<string>)
    requires rows != []
    ensures |Joined(rows)| >= |rows[0]| + 2 && Joined(rows)[0] == '(' && Joined(rows)[|Joined(rows)| - 1] == ')'
    ensures |rows| > 1 ==> |Joined(rows)| > |rows[0]| + 4
  {
    if |rows| > 1 {
      JoinedEnds(rows[1..]);
    }
  }

  /** Between two neighbouring rows stands `),(`. */
  lemma BetweenRows(rows: seq<string>, k: nat)
    requires 0 < k < |rows|
    ensures |Joined(rows[..k])| >= 2 && Between(Joined(rows), |Joined(rows[..k])| - 1)
  {
    JoinedSplit(rows, k);
    JoinedEnds(rows[..k]);
    JoinedEnds(rows[k..]);
  }

  /** When no row contains `),(`, it stands nowhere else. */
  lemma {:induction false} OnlyBetweenRows(rows: seq<string>, p: nat) returns (k: nat)
    requires Plain(rows) && Between(Joined(rows), p)
    ensures 0 < k < |rows| && p + 1 == |Joined(rows[..k])|
  {
    var r, text := rows[0], Joined(rows);
    if |r| + 3 <= p {
      k := OnlyBetweenRows(rows[1..], p - |r| - 3);
      assert rows[..k + 1][1..] == rows[1..][..k];
      k := k + 1;
    } else {
      assert text[..|r| + 2] == "(" + r + ")";
      assert p + 2 <= |r| && p > 0 ==> Between(r, p - 1);
      assert p == |r| + 1;
      k := 1;
      assert rows[..1] == [r];
    }
  }

  // ---------------------------------------------------------------- cutting

  /** What is sent, and whether everything could be cut. */
  datatype Plan = Plan(pieces: seq<string>, complete: bool)

  /** `rfind("),(", pos)`: the last place up to `pos`, or -1. */
  function LastBetween(text: string, pos: nat): (r: int)
    ensures -1 <= r <= pos && (r >= 0 ==> Between(text, r))
    ensures forall p | r < p <= pos :: !Between(text, p)
  {
    if Between(text, pos) then pos
    else if pos == 0 then -1
    else LastBetween(text, pos - 1)
  }

  function DropComma(text: string): string {
    if text != "" && text[|text| - 1] == ',' then text[..|text| - 1] else text
  }

  /** Where the next query ends, or -1. */
  function CutPos(text: string, room: nat): (r: int)
    ensures r <= |text| && (text != "" ==> r == -1 || r > 0)
  {
    if room >= |text| then |text|
    else if LastBetween(text, room) < 0 then -1
    else LastBetween(text, room) + 2
  }

  /** The pieces `execute` cuts a text into, with room for `room` characters. */
  function Cut(text: string, room: nat): Plan
    decreases |text|
  {
    if text == "" then Plan([], true)
    else
      var cut := CutPos(text, room);
      if cut < 0 then Plan([], false) else After([DropComma(text[..cut])], Cut(text[cut..], room))
  }

  function After(sent: seq<string>, plan: Plan): Plan {
    Plan(sent + plan.pieces, plan.complete)
  }

  function Commas(pieces: seq<string>): string {
    if pieces == [] then ""
    else if |pieces| == 1 then pieces[0]
    else pieces[0] + "," + Commas(pieces[1..])
  }

  /** The pieces make up the text, up to a rest that could not be cut, and none is longer than the room and one. */
  ghost predicate Whole(text: string, plan: Plan, room: nat) {
    && (forall i | 0 <= i < |plan.pieces| :: 0 < |plan.pieces[i]| <= room + 1)
    && (plan.complete ==> Commas(plan.pieces) == text)
    && (!plan.complete ==> exists rest: string :: Leaves(text, plan.pieces, rest))
  }

  ghost predicate Leaves(text: string, pieces: seq<string>, rest: string) {
    rest != "" && text == Commas(pieces + [rest])
  }

  /** Whatever the rows contain, nothing of the text is lost or sent twice. */
  lemma {:induction false} CutIsWhole(text: string, room: nat)
    requires text != "" ==> text[|text| - 1] == ')'
    ensures Whole(text, Cut(text, room), room)
  {
    if text != "" && |text| > room {
      var p := LastBetween(text, room);
      if p < 0 {
        NothingCut(text, room);
      } else {
        CutStep(text, room);
        CutIsWhole(text[p + 2..], room);
        WholeStep(text, p, Cut(text[p + 2..], room), room);
      }
    } else {
      CutAll(text, room);
    }
  }

  lemma NothingCut(text: string, room: nat)
    requires text != ""
    ensures Whole(text, Plan([], false), room)
  {
    assert Plan([], false).pieces + [text] == [text];
    assert Leaves(text, Plan([], false).pieces, text);
  }

  lemma CutAll(text: string, room: nat)
    requires |text| <= room && (text != "" ==> text[|text| - 1] == ')')
    ensures Cut(text, room) == Plan(if text == "" then [] else [text], true)
  {
    assert text[..|text|] == text && text[|text|..] == "";
  }

  lemma WholeStep(text: string, p: nat, rest: Plan, room: nat)
    requires Between(text, p) && p <= room && Whole(text[p + 2..], rest, room)
    ensures Whole(text, Plan([text[..p + 1]] + rest.pieces, rest.complete), room)
  {
    var piece := text[..p + 1];
    assert text == piece + "," + text[p + 2..];
    var pieces := [piece] + rest.pieces;
    forall i | 0 <= i < |pieces| ensures 0 < |pieces[i]| <= room + 1 {
      if i > 0 {
        assert pieces[i] == rest.pieces[i - 1];
      }
    }
    if rest.complete {
      assert rest.pieces != [];
      CommasStep(piece, rest.pieces);
    } else {
      var last: string :| Leaves(text[p + 2..], rest.pieces, last);
      CommasStep(piece, rest.pieces + [last]);
      assert [piece] + (rest.pieces + [last]) == [piece] + rest.pieces + [last];
      assert Leaves(text, [piece] + rest.pieces, last);
    }
  }

  lemma CommasStep(piece: string, pieces: seq<string>)
    requires pieces != []
    ensures Commas([piece] + pieces) == piece + "," + Commas(pieces)
  {
    assert ([piece] + pieces)[1..] == pieces;
  }

  // ---------------------------------------------------------------- cutting between rows

  /** The plan sends nonempty runs of whole rows, in order, and all of them when it is complete. */
  ghost predicate WholeRows(rows: seq<string>, plan: Plan) {
    exists groups: seq<seq<string>> :: RunsOf(rows, plan, groups)
  }

  ghost predicate RunsOf(rows: seq<string>, plan: Plan, groups: seq<seq<string>>) {
    && |groups| == |plan.pieces|
    && (forall i | 0 <= i < |groups| :: groups[i] != [] && plan.pieces[i] == Joined(groups[i]))
    && Flatten(groups) <= rows
    && (plan.complete <==> Flatten(groups) == rows)
  }

  /** The boundary after each row lies within the room; the last row needs one more for its parenthesis. */
  predicate RowsFit(rows: seq<string>, room: nat) {
    forall i | 0 <= i < |rows| :: |rows[i]| + (if i == |rows| - 1 then 2 else 1) <= room
  }

  /** The first cut is between two rows, after the longest run whose boundary is within the room. */
  lemma FirstCut(rows: seq<string>, room: nat) returns (k: nat)
    requires Plain(rows) && |Joined(rows)| > room
    ensures k < |rows|
    ensures k == 0 ==> LastBetween(Joined(rows), room) == -1 && (|rows| == 1 || |rows[0]| + 1 > room)
    ensures k > 0 ==> LastBetween(Joined(rows), room) + 1 == |Joined(rows[..k])|
                      && Joined(rows)[|Joined(rows[..k])| + 1..] == Joined(rows[k..])
    ensures k > 0 ==> Joined(rows)[..|Joined(rows[..k])|] == Joined(rows[..k]) && |Joined(rows[..k])| <= room + 1
  {
    var p := LastBetween(Joined(rows), room);
    if p < 0 {
      k := 0;
      if |rows| > 1 {
        BetweenRows(rows, 1);
        assert rows[..1] == [rows[0]];
      }
    } else {
      k := OnlyBetweenRows(rows, p);
      JoinedSplit(rows, k);
    }
  }

  /** No row is longer than the text. */
  lemma {:induction false} RowWithin(rows: seq<string>, i: nat)
    requires i < |rows|
    ensures |Joined(rows)| >= |rows[i]| + 2
  {
    if i > 0 {
      RowWithin(rows[1..], i - 1);
    }
  }

  /** With plain rows only whole rows are sent, and everything is sent if and only if every row fits. */
  lemma {:induction false} PlainCut(rows: seq<string>, room: nat)
    requires Plain(rows)
    ensures WholeRows(rows, Cut(Joined(rows), room))
    ensures Cut(Joined(rows), room).complete <==> RowsFit(rows, room)
    decreases |rows|
  {
    var text := Joined(rows);
    if rows == [] {
      assert RunsOf(rows, Cut(text, room), []);
    } else if |text| <= room {
      JoinedEnds(rows);
      assert Flatten([rows]) == rows;
      assert RunsOf(rows, Cut(text, room), [rows]);
      forall i | 0 <= i < |rows| ensures |rows[i]| + 2 <= room {
        RowWithin(rows, i);
      }
    } else {
      JoinedEnds(rows);
      var k := FirstCut(rows, room);
      if k == 0 {
        assert Flatten([]) == [];
        assert RunsOf(rows, Cut(text, room), []);
        assert |rows| == 1 ==> |text| == |rows[0]| + 2;
        assert !RowsFit(rows, room);
      } else {
        PlainCut(rows[k..], room);
        PlainRuns(rows, room, k);
        RestFits(rows, room, k);
      }
    }
  }

  /** The runs of the rest, after a first run of `k` rows. */
  lemma PlainRuns(rows: seq<string>, room: nat, k: nat)
    requires 0 < k < |rows| && |Joined(rows)| > room
    requires LastBetween(Joined(rows), room) + 1 == |Joined(rows[..k])|
    requires Joined(rows)[|Joined(rows[..k])| + 1..] == Joined(rows[k..])
    requires Joined(rows)[..|Joined(rows[..k])|] == Joined(rows[..k])
    requires WholeRows(rows[k..], Cut(Joined(rows[k..]), room))
    ensures WholeRows(rows, Cut(Joined(rows), room))
    ensures Cut(Joined(rows), room).complete == Cut(Joined(rows[k..]), room).complete
  {
    var text, rest := Joined(rows), Cut(Joined(rows[k..]), room);
    CutStep(text, room);
    var groups :| RunsOf(rows[k..], rest, groups);
    RunsStep(rows, k, rest, groups);
  }

  /** The first piece ends before the comma, and the rest of the text is cut in the same way. */
  lemma CutStep(text: string, room: nat)
    requires |text| > room && LastBetween(text, room) >= 0
    ensures var p := LastBetween(text, room);
            var rest := Cut(text[p + 2..], room);
            Cut(text, room) == Plan([text[..p + 1]] + rest.pieces, rest.complete)
  {
    var p := LastBetween(text, room);
    assert DropComma(text[..p + 2]) == text[..p + 1];
  }

  lemma RunsStep(rows: seq<string>, k: nat, rest: Plan, groups: seq<seq<string>>)
    requires 0 < k < |rows| && RunsOf(rows[k..], rest, groups)
    ensures RunsOf(rows, Plan([Joined(rows[..k])] + rest.pieces, rest.complete), [rows[..k]] + groups)
  {
    var all := [rows[..k]] + groups;
    assert all[1..] == groups;
    assert Flatten(all) == rows[..k] + Flatten(groups);
    assert rows == rows[..k] + rows[k..];
  }

  lemma RestFits(rows: seq<string>, room: nat, k: nat)
    requires 0 < k < |rows| && |Joined(rows[..k])| <= room + 1
    ensures RowsFit(rows, room) <==> RowsFit(rows[k..], room)
  {
    forall i | 0 <= i < k ensures |rows[i]| + 1 <= room {
      RowWithin(rows[..k], i);
    }
    assert forall i | k <= i < |rows| :: rows[i] == rows[k..][i - k];
    assert forall i | 0 <= i < |rows[k..]| :: rows[k..][i] == rows[k + i];
  }

  /**
   No query could have carried the row that comes after it: with that row its rows are longer than the room. So each
   run is the longest that can be sent.
   */
  ghost predicate Longest(rows: seq<string>, groups: seq<seq<string>>, room: nat)
    decreases |groups|
  {
    groups != [] ==>
      && |groups[0]| <= |rows|
      && (|groups[0]| < |rows| ==> |Joined(rows[..|groups[0]| + 1])| > room)
      && Longest(rows[|groups[0]|..], groups[1..], room)
  }

  /** With plain rows each query carries the longest run of rows that fits. */
  lemma {:induction false} CutIsLongest(rows: seq<string>, room: nat) returns (groups: seq<seq<string>>)
    requires Plain(rows)
    ensures RunsOf(rows, Cut(Joined(rows), room), groups) && Longest(rows, groups, room)
    decreases |rows|
  {
    var text := Joined(rows);
    if rows == [] {
      groups := [];
    } else if |text| <= room {
      groups := [rows];
      JoinedEnds(rows);
      assert Flatten(groups) == rows && rows[|rows|..] == [] && groups[1..] == [];
    } else {
      JoinedEnds(rows);
      var k := FirstCut(rows, room);
      if k == 0 {
        groups := [];
        assert Flatten(groups) == [];
      } else {
        NextTooLong(rows, room, k);
        var rest := CutIsLongest(rows[k..], room);
        groups := [rows[..k]] + rest;
        LongestStep(rows, room, k, rest);
      }
    }
  }

  lemma LongestStep(rows: seq<string>, room: nat, k: nat, rest: seq<seq<string>>)
    requires 0 < k < |rows| && |Joined(rows)| > room && |Joined(rows[..k + 1])| > room
    requires LastBetween(Joined(rows), room) + 1 == |Joined(rows[..k])|
    requires Joined(rows)[|Joined(rows[..k])| + 1..] == Joined(rows[k..])
    requires Joined(rows)[..|Joined(rows[..k])|] == Joined(rows[..k])
    requires RunsOf(rows[k..], Cut(Joined(rows[k..]), room), rest) && Longest(rows[k..], rest, room)
    ensures RunsOf(rows, Cut(Joined(rows), room), [rows[..k]] + rest) && Longest(rows, [rows[..k]] + rest, room)
  {
    CutStep(Joined(rows), room);
    RunsStep(rows, k, Cut(Joined(rows[k..]), room), rest);
    var groups := [rows[..k]] + rest;
    assert groups[0] == rows[..k] && groups[1..] == rest;
  }

  /** The row after the first cut did not fit. */
  lemma NextTooLong(rows: seq<string>, room: nat, k: nat)
    requires 0 < k < |rows| && |Joined(rows)| > room
    requires LastBetween(Joined(rows), room) + 1 == |Joined(rows[..k])|
    ensures |Joined(rows[..k + 1])| > room
  {
    if k + 1 < |rows| {
      BetweenRows(rows, k + 1);
      JoinedSplit(rows[..k + 1], k);
      assert rows[..k + 1][..k] == rows[..k];
    } else {
      assert rows[..k + 1] == rows;
    }
  }

  /** Only whole rows are sent, whatever the room, if and only if no row contains `),(`. */
  lemma WholeRowsIffPlain(rows: seq<string>)
    ensures (forall room: nat :: WholeRows(rows, Cut(Joined(rows), room))) <==> Plain(rows)
  {
    if Plain(rows) {
      forall room: nat ensures WholeRows(rows, Cut(Joined(rows), room)) {
        PlainCut(rows, room);
      }
    } else {
      var i, p: nat :| 0 <= i < |rows| && Between(rows[i], p);
      SplitsRow(rows, i, p);
    }
  }

  /** A row with `),(` in it is cut in two for some room. */
  lemma SplitsRow(rows: seq<string>, i: nat, p: nat)
    requires i < |rows| && Between(rows[i], p)
    ensures exists room: nat :: !WholeRows(rows, Cut(Joined(rows), room))
  {
    var text, room := Joined(rows), RowStart(rows, i) + 1 + p;
    BetweenInRow(rows, i, p);
    CutStep(text, room);
    var plan := Cut(text, room);
    assert |plan.pieces[0]| == room + 1;
    forall groups | RunsOf(rows, plan, groups) ensures false {
      FirstRun(rows, plan, groups);
      NoRunEndsIn(rows, i, p, |groups[0]|);
    }
  }

  /** Where the parenthesis before row `i` stands. */
  function RowStart(rows: seq<string>, i: nat): nat
    requires i < |rows|
  {
    if i == 0 then 0 else |Joined(rows[..i])| + 1
  }

  lemma BetweenInRow(rows: seq<string>, i: nat, p: nat)
    requires i < |rows| && Between(rows[i], p)
    ensures Between(Joined(rows), RowStart(rows, i) + 1 + p) && |Joined(rows)| > RowStart(rows, i) + 1 + p
  {
    RowAt(rows, i);
    var start := RowStart(rows, i);
    var row := Joined(rows)[start + 1..start + 1 + |rows[i]|];
    assert Between(row, p);
  }

  lemma FirstRun(rows: seq<string>, plan: Plan, groups: seq<seq<string>>)
    requires RunsOf(rows, plan, groups) && plan.pieces != []
    ensures |groups[0]| <= |rows| && plan.pieces[0] == Joined(rows[..|groups[0]|])
  {
    assert Flatten(groups) == groups[0] + Flatten(groups[1..]);
    assert groups[0] == rows[..|groups[0]|];
  }

  /** No run of rows ends inside row `i`. */
  lemma NoRunEndsIn(rows: seq<string>, i: nat, p: nat, k: nat)
    requires i < |rows| && p < |rows[i]| && k <= |rows|
    ensures |Joined(rows[..k])| != RowStart(rows, i) + p + 2
  {
    if k <= i {
      LongerRun(rows, k, i);
    } else {
      LongerRun(rows, i + 1, k);
      RowAt(rows[..i + 1], i);
      assert rows[..i + 1][..i] == rows[..i];
    }
  }

  /** Where row `i` stands. */
  lemma RowAt(rows: seq<string>, i: nat)
    requires i < |rows|
    ensures var start := RowStart(rows, i);
            start + 1 + |rows[i]| < |Joined(rows)| && Joined(rows)[start + 1..start + 1 + |rows[i]|] == rows[i]
  {
    RowFirst(rows[i..]);
    TailAt(rows, i);
    Tail(Joined(rows), RowStart(rows, i), 1, |rows[i]|);
  }

  lemma RowFirst(rows: seq<string>)
    requires rows != []
    ensures 1 + |rows[0]| < |Joined(rows)| && Joined(rows)[1..1 + |rows[0]|] == rows[0]
  {
  }

  lemma TailAt(rows: seq<string>, i: nat)
    requires i < |rows|
    ensures RowStart(rows, i) <= |Joined(rows)| && Joined(rows)[RowStart(rows, i)..] == Joined(rows[i..])
  {
    if i == 0 {
      assert rows[0..] == rows;
    } else {
      JoinedSplit(rows, i);
    }
  }

  lemma Tail(s: string, i: nat, a: nat, n: nat)
    requires i + a + n <= |s|
    ensures s[i..][a..a + n] == s[i + a..i + a + n]
  {
  }

  lemma LongerRun(rows: seq<string>, k: nat, l: nat)
    requires k <= l <= |rows|
    ensures |Joined(rows[..k])| <= |Joined(rows[..l])|
  {
    if 0 < k < l {
      JoinedSplit(rows[..l], k);
      assert rows[..l][..k] == rows[..k];
    }
  }

  // ---------------------------------------------------------------- the insert

  class Database {
    /** The queries sent so far. */
    var log: seq<string>
    /** Whether the query after so many others succeeds. */
    const accepts: nat -> bool
    const maxPacketSize: nat

    constructor (accepts: nat -> bool, maxPacketSize: nat)
      ensures log == [] && this.accepts == accepts && this.maxPacketSize == maxPacketSize
    {
      log, this.accepts, this.maxPacketSize := [], accepts, maxPacketSize;
    }

    method ExecuteQuery(query: string) returns (ok: bool)
      modifies this`log
      ensures log == old(log) + [query] && ok == accepts(|old(log)|)
    {
      ok := accepts(|log|);
      log := log + [query];
    }
  }

  function UpsertColumn(column: string): string {
    "`" + column + "` = VALUES(`" + column + "`)"
  }

  function UpsertColumns(columns: seq<string>): string {
    if columns == [] then ""
    else if |columns| == 1 then UpsertColumn(columns[0])
    else UpsertColumn(columns[0]) + ", " + UpsertColumns(columns[1..])
  }

  function UpsertText(columns: seq<string>): string {
    if columns == [] then "" else " ON DUPLICATE KEY UPDATE " + UpsertColumns(columns)
  }

  lemma {:induction false} UpsertStep(columns: seq<string>, i: nat)
    requires i < |columns|
    ensures UpsertColumns(columns[..i + 1])
            == (if i == 0 then "" else UpsertColumns(columns[..i]) + ", ") + UpsertColumn(columns[i])
  {
    if i > 0 {
      UpsertStep(columns[1..], i - 1);
      assert columns[..i + 1][1..] == columns[1..][..i];
      assert columns[..i][1..] == columns[1..][..i - 1];
    }
  }

  /** A query: the statement, a piece of the rows, and what to update. */
  function Query(base: string, piece: string, upsert: string): string {
    base + " " + piece + upsert
  }

  /** Statement, space, rows, and what to update, one after the other and nothing else. */
  lemma QueryParts(base: string, piece: string, upsert: string)
    ensures var q, n, m := Query(base, piece, upsert), |base|, |piece|;
            && |q| == n + 1 + m + |upsert| && q[..n] == base && q[n] == ' ' && q[n + 1..n + 1 + m] == piece
            && q[n + 1 + m..] == upsert
  {
  }

  /** What to update, for no column, one, and each further one. */
  lemma UpsertParts(columns: seq<string>, column: string)
    ensures UpsertText([]) == ""
    ensures var part := "`" + column + "` = VALUES(`" + column + "`)";
            UpsertText(columns + [column])
            == (if columns == [] then " ON DUPLICATE KEY UPDATE " else UpsertText(columns) + ", ") + part
  {
    var all := columns + [column];
    UpsertStep(all, |columns|);
    assert all[..|columns| + 1] == all && all[..|columns|] == columns && all[|columns|] == column;
    Append(" ON DUPLICATE KEY UPDATE ", UpsertColumns(columns), ", ", UpsertColumn(column));
  }

  lemma Append(a: string, b: string, c: string, d: string)
    ensures a + (b + c + d) == (a + b) + c + d
  {
  }

  function Queries(base: string, pieces: seq<string>, upsert: string): (r: seq<string>)
    ensures |r| == |pieces| && forall i | 0 <= i < |r| :: r[i] == Query(base, pieces[i], upsert)
  {
    seq(|pieces|, i requires 0 <= i < |pieces| => Query(base, pieces[i], upsert))
  }

  /** The room for rows in a query, as unsigned arithmetic has it. */
  function Room(base: string, upsert: string): nat {
    (MAX_QUERY_SIZE - |base| - |upsert|) % U64
  }

  /** Exactly the first queries of a plan were sent, up to the first that was refused. */
  ghost predicate Sent(before: seq<string>, after: seq<string>, queries: seq<string>, complete: bool,
                       accepts: nat -> bool, ok: bool) {
    && |before| <= |after| <= |before| + |queries|
    && after == before + queries[..|after| - |before|]
    && (forall n | |before| <= n < |after| - 1 :: accepts(n))
    && (ok ==> complete && |after| == |before| + |queries| && (after == before || accepts(|after| - 1)))
    && (!ok ==> (!complete && |after| == |before| + |queries|) || (|after| > |before| && !accepts(|after| - 1)))
  }

  lemma AfterStep(sent: seq<string>, piece: string, rest: Plan)
    ensures After(sent, After([piece], rest)) == After(sent + [piece], rest)
  {
  }

  /** The queries up to one that is refused. */
  lemma SentRefused(before: seq<string>, after: seq<string>, sent: seq<string>, rest: seq<string>, base: string,
                    upsert: string, complete: bool, accepts: nat -> bool)
    requires sent != [] && after == before + Queries(base, sent, upsert)
    requires (forall n | |before| <= n < |after| - 1 :: accepts(n)) && !accepts(|after| - 1)
    ensures Sent(before, after, Queries(base, sent + rest, upsert), complete, accepts, false)
  {
    QueriesPrefix(base, sent, rest, upsert);
  }

  /** All queries. */
  lemma SentAll(before: seq<string>, after: seq<string>, plan: Plan, base: string, upsert: string, accepts: nat -> bool)
    requires after == before + Queries(base, plan.pieces, upsert)
    requires forall n | |before| <= n < |after| :: accepts(n)
    ensures Sent(before, after, Queries(base, plan.pieces, upsert), plan.complete, accepts, plan.complete)
  {
  }

  lemma QueriesStep(before: seq<string>, base: string, pieces: seq<string>, upsert: string, piece: string)
    ensures before + Queries(base, pieces, upsert) + [Query(base, piece, upsert)]
            == before + Queries(base, pieces + [piece], upsert)
  {
    assert Queries(base, pieces + [piece], upsert) == Queries(base, pieces, upsert) + [Query(base, piece, upsert)];
  }

  lemma QueriesPrefix(base: string, sent: seq<string>, rest: seq<string>, upsert: string)
    ensures Queries(base, sent + rest, upsert)[..|sent|] == Queries(base, sent, upsert)
  {
  }

  /** The columns before `i`, with the separator that follows them. */
  function UpsertBefore(columns: seq<string>, i: nat): string
    requires i <= |columns|
  {
    UpsertColumns(columns[..i]) + if 0 < i < |columns| then ", " else ""
  }

  lemma UpsertNext(columns: seq<string>, i: nat)
    requires i < |columns|
    ensures UpsertBefore(columns, i + 1)
            == UpsertBefore(columns, i) + UpsertColumn(columns[i]) + if i < |columns| - 1 then ", " else ""
  {
    UpsertStep(columns, i);
  }

  class DBInsert {
    const query: string
    var values: string
    var length: nat
    var upsertColumns: seq<string>
    /** The rows in `values`. */
    ghost var rows: seq<string>

    ghost predicate Valid()
      reads this
    {
      values == Joined(rows)
    }

    constructor (query: string)
      ensures this.query == query && rows == [] && upsertColumns == [] && length == |query| && Valid()
    {
      this.query := query;
      values, length, upsertColumns, rows := "", |query|, [], [];
    }

    method Upsert(columns: seq<string>)
      modifies this`upsertColumns
      ensures upsertColumns == columns
    {
      upsertColumns := columns;
    }

    /** `addRow`: sends what is there when the packet gets too large, and then adds the row to it. */
    method AddRow(db: Database, row: string) returns (ok: bool)
      requires Valid()
      modifies this`values, this`length, this`rows, db`log
      ensures Valid() && length == old(length) + |row|
      ensures rows == if ok then old(rows) + [row] else old(rows)
      ensures length <= db.maxPacketSize ==> ok && db.log == old(db.log)
      ensures length > db.maxPacketSize ==> Executed(old(db.log), db, old(rows), ok)
    {
      length := length + |row|;
      if length > db.maxPacketSize {
        ok := Execute(db);
        if !ok {
          return false;
        }
      }
      JoinedAdd(rows, row);
      values := if values == "" then "(" + row + ")" else values + "," + ("(" + row + ")");
      rows := rows + [row];
      return true;
    }

    /** What `execute` sends for some rows. */
    ghost predicate Executed(before: seq<string>, db: Database, rows: seq<string>, ok: bool)
      reads this`upsertColumns, db
    {
      var upsert := UpsertText(upsertColumns);
      var plan := Cut(Joined(rows), Room(query, upsert));
      Sent(before, db.log, Queries(query, plan.pieces, upsert), plan.complete, db.accepts, ok)
    }

    method UpsertQuery() returns (text: string)
      ensures text == UpsertText(upsertColumns)
    {
      text := "";
      if |upsertColumns| > 0 {
        text := " ON DUPLICATE KEY UPDATE ";
        ghost var head := text;
        var i := 0;
        while i < |upsertColumns|
          invariant 0 <= i <= |upsertColumns|
          invariant text == head + UpsertBefore(upsertColumns, i)
        {
          UpsertNext(upsertColumns, i);
          text := text + UpsertColumn(upsertColumns[i]);
          if i < |upsertColumns| - 1 {
            text := text + ", ";
          }
          i := i + 1;
        }
        assert upsertColumns[..i] == upsertColumns;
      }
    }

    /** `execute`. */
    method Execute(db: Database) returns (ok: bool)
      requires Valid()
      modifies db`log
      ensures Executed(old(db.log), db, rows, ok)
    {
      if values == "" {
        return true;
      }
      var upsertQuery := UpsertQuery();
      ok := Send(db, Room(query, upsertQuery), upsertQuery);
    }

    /** The loop of `execute`. */
    method Send(db: Database, room: nat, upsertQuery: string) returns (ok: bool)
      modifies db`log
      ensures var plan := Cut(values, room);
              Sent(old(db.log), db.log, Queries(query, plan.pieces, upsertQuery), plan.complete, db.accepts, ok)
    {
      var currentBatch := values;
      ghost var sent: seq<string> := [];
      ghost var before := db.log;
      while currentBatch != ""
        invariant Cut(values, room) == After(sent, Cut(currentBatch, room))
        invariant db.log == before + Queries(query, sent, upsertQuery)
        invariant forall n | |before| <= n < |db.log| :: db.accepts(n)
        decreases |currentBatch|
      {
        var cutPos := NextCut(currentBatch, room);
        if cutPos == -1 {
          SentAll(before, db.log, After(sent, Plan([], false)), query, upsertQuery, db.accepts);
          return false;
        }
        var batchValues := DropComma(currentBatch[..cutPos]);
        currentBatch := currentBatch[cutPos..];
        AfterStep(sent, batchValues, Cut(currentBatch, room));
        QueriesStep(before, query, sent, upsertQuery, batchValues);
        sent := sent + [batchValues];
        var executed := db.ExecuteQuery(Query(query, batchValues, upsertQuery));
        if !executed {
          SentRefused(before, db.log, sent, Cut(currentBatch, room).pieces, query, upsertQuery,
            Cut(currentBatch, room).complete, db.accepts);
          return false;
        }
      }
      SentAll(before, db.log, After(sent, Plan([], true)), query, upsertQuery, db.accepts);
      return true;
    }
  }

  method NextCut(text: string, room: nat) returns (cutPos: int)
    ensures cutPos == CutPos(text, room)
  {
    cutPos := room;
    if cutPos < |text| {
      cutPos := LastBetween(text, cutPos);
      if cutPos == -1 {
        return;
      }
      cutPos := cutPos + 2;
    } else {
      cutPos := |text|;
    }
  }

  lemma RoomLeft(base: string, upsert: string)
    requires |base| + |upsert| <= MAX_QUERY_SIZE
    ensures Room(base, upsert) == MAX_QUERY_SIZE - |base| - |upsert|
  {
  }

  /** As long as statement and update text fit, no query is longer than the limit and two. */
  lemma QuerySize(base: string, upsert: string, rows: seq<string>, query: string)
    requires |base| + |upsert| <= MAX_QUERY_SIZE
    requires query in Queries(base, Cut(Joined(rows), Room(base, upsert)).pieces, upsert)
    ensures |query| <= MAX_QUERY_SIZE + 2
  {
    var room := Room(base, upsert);
    RoomLeft(base, upsert);
    if rows != [] {
      JoinedEnds(rows);
    }
    CutIsWhole(Joined(rows), room);
  }

  /** The queries after `before` carry nonempty runs of whole rows that make up `rows`, within the limit and two. */
  ghost predicate RowsSent(before: seq<string>, after: seq<string>, base: string, upsert: string, rows: seq<string>) {
    exists groups: seq<seq<string>> ::
      && Flatten(groups) == rows && |after| == |before| + |groups| && before <= after
      && forall i | 0 <= i < |groups| ::
           groups[i] != [] && after[|before| + i] == Query(base, Joined(groups[i]), upsert)
             && |after[|before| + i]| <= MAX_QUERY_SIZE + 2
  }

  /** When `execute` succeeds, exactly the rows were sent, in order. */
  lemma ExecutedRows(insert: DBInsert, before: seq<string>, db: Database, rows: seq<string>)
    requires insert.Executed(before, db, rows, true) && Plain(rows)
    requires |insert.query| + |UpsertText(insert.upsertColumns)| <= MAX_QUERY_SIZE
    ensures RowsSent(before, db.log, insert.query, UpsertText(insert.upsertColumns), rows)
  {
    var base, upsert := insert.query, UpsertText(insert.upsertColumns);
    var plan := Cut(Joined(rows), Room(base, upsert));
    var queries := Queries(base, plan.pieces, upsert);
    PlainCut(rows, Room(base, upsert));
    var groups :| RunsOf(rows, plan, groups);
    forall i | 0 <= i < |groups|
      ensures db.log[|before| + i] == Query(base, Joined(groups[i]), upsert)
      ensures |db.log[|before| + i]| <= MAX_QUERY_SIZE + 2
    {
      assert db.log[|before| + i] == queries[i];
      QuerySize(base, upsert, rows, queries[i]);
    }
  }

  /** The first piece when there is room just up to `),(` in a row: it ends inside that row. */
  lemma FirstPiece(rows: seq<string>, i: nat, p: nat)
    requires i < |rows| && Between(rows[i], p)
    ensures |Joined(rows)| > RowStart(rows, i) + p + 2
    ensures var pieces := Cut(Joined(rows), RowStart(rows, i) + p + 1).pieces;
            pieces != [] && pieces[0] == Joined(rows)[..RowStart(rows, i) + p + 2]
    ensures forall k | 0 <= k <= |rows| :: Joined(rows)[..RowStart(rows, i) + p + 2] != Joined(rows[..k])
  {
    BetweenInRow(rows, i, p);
    CutStep(Joined(rows), RowStart(rows, i) + p + 1);
    forall k | 0 <= k <= |rows| ensures Joined(rows)[..RowStart(rows, i) + p + 2] != Joined(rows[..k]) {
      NoRunEndsIn(rows, i, p, k);
    }
  }

  /** When the first query carries no run of the first rows, it is not so that whole rows were sent. */
  lemma RunsBroken(before: seq<string>, after: seq<string>, base: string, rows: seq<string>, piece: string)
    requires |before| < |after| && after[|before|] == Query(base, piece, "")
    requires forall k | 0 <= k <= |rows| :: piece != Joined(rows[..k])
    ensures !RowsSent(before, after, base, "", rows)
  {
    forall groups: seq<seq<string>> | groups != [] && Flatten(groups) == rows
      ensures Query(base, Joined(groups[0]), "") != Query(base, piece, "")
    {
      assert groups[0] == rows[..|groups[0]|];
      OtherPiece(base, Joined(groups[0]), piece);
    }
  }

  lemma OtherPiece(base: string, p: string, q: string)
    requires p != q
    ensures Query(base, p, "") != Query(base, q, "")
  {
    assert Query(base, p, "")[|base| + 1..] == p && Query(base, q, "")[|base| + 1..] == q;
  }

  lemma FirstSent(before: seq<string>, after: seq<string>, base: string, plan: Plan, accepts: nat -> bool, ok: bool)
    requires plan.pieces != [] && Sent(before, after, Queries(base, plan.pieces, ""), plan.complete, accepts, ok)
    ensures |before| < |after| && before == after[..|before|] && after[|before|] == Query(base, plan.pieces[0], "")
  {
  }

  /** Where a statement leaves just the room up to `),(` in a row, the first query carries a part of that row. */
  lemma SplitInsert(insert: DBInsert, before: seq<string>, db: Database, rows: seq<string>, i: nat, p: nat, ok: bool)
    requires insert.Executed(before, db, rows, ok) && insert.upsertColumns == []
    requires i < |rows| && Between(rows[i], p) && |insert.query| == MAX_QUERY_SIZE - (RowStart(rows, i) + p + 1)
    ensures |before| < |db.log| && before == db.log[..|before|] && |Joined(rows)| > RowStart(rows, i) + p + 2
    ensures db.log[|before|] == Query(insert.query, Joined(rows)[..RowStart(rows, i) + p + 2], "")
    ensures forall k | 0 <= k <= |rows| :: Joined(rows)[..RowStart(rows, i) + p + 2] != Joined(rows[..k])
    ensures !RowsSent(before, db.log, insert.query, "", rows)
  {
    FirstPiece(rows, i, p);
    var room := RowStart(rows, i) + p + 1;
    RoomLeft(insert.query, "");
    assert UpsertText([]) == "";
    FirstSent(before, db.log, insert.query, Cut(Joined(rows), room), db.accepts, ok);
    RunsBroken(before, db.log, insert.query, rows, Joined(rows)[..RowStart(rows, i) + p + 2]);
  }

  /** Such an insert of one row: its first query ends inside the row. */
  method InsertSplitRow(db: Database, base: string, row: string, p: nat) returns (ok: bool)
    requires Between(row, p) && |base| == MAX_QUERY_SIZE - (p + 1) && |base| + |row| <= db.maxPacketSize
    modifies db`log
    ensures |old(db.log)| < |db.log| && db.log[|old(db.log)|] == Query(base, "(" + row[..p + 1], "")
    ensures !RowsSent(old(db.log), db.log, base, "", [row])
  {
    var insert := new DBInsert(base);
    var added := insert.AddRow(db, row);
    assert insert.rows == [row];
    ok := insert.Execute(db);
    SplitInsert(insert, old(db.log), db, [row], 0, p, ok);
    OneRow(row, p);
  }

  lemma OneRow(row: string, p: nat)
    requires p < |row|
    ensures RowStart([row], 0) == 0 && Joined([row])[..p + 2] == "(" + row[..p + 1]
  {
  }

  /** With a database that accepts everything, `execute` succeeds if and only if every row fits. */
  lemma ExecutedIffFits(insert: DBInsert, before: seq<string>, db: Database, rows: seq<string>, ok: bool)
    requires insert.Executed(before, db, rows, ok) && Plain(rows) && forall n :: db.accepts(n)
    ensures ok <==> RowsFit(rows, Room(insert.query, UpsertText(insert.upsertColumns)))
  {
    PlainCut(rows, Room(insert.query, UpsertText(insert.upsertColumns)));
  }
}
