// The row table behind a pane's scrollback and its two retention caps
// (crates/gpty-core/src/history.rs, `HistoryStore`). The SQL statements are
// functions on the rows of one pane.
module Retention {
  import opened Wrappers
  import opened HistoryQueue

  const RETAINED_BYTES_PER_ROW: nat := 1024
  const UNCAPPED_ROW_BUDGET: nat := 1024
  const USIZE_MAX: nat := 0xFFFF_FFFF_FFFF_FFFF

  datatype Caps = Caps(cap: nat, byteCap: nat) {
    function WindowRows(): nat {
      if cap == 0 then USIZE_MAX else cap
    }
  }

  function OpenCaps(cap: nat): Caps {
    Caps(cap, (if cap < UNCAPPED_ROW_BUDGET then UNCAPPED_ROW_BUDGET else cap) * RETAINED_BYTES_PER_ROW)
  }

  // ── The queries ────────────────────────────────────────────────────────

  // The rows `DELETE ... WHERE line_num <= num` leaves.
  function After(rows: seq<Line>, num: int): seq<Line> {
    if rows == [] then []
    else if rows[0].num > num then [rows[0]] + After(rows[1..], num)
    else After(rows[1..], num)
  }

  // SUM(LENGTH(text)): SQLite counts characters here.
  function Chars(rows: seq<Line>): nat {
    if rows == [] then 0 else |rows[0].text| + Chars(rows[1..])
  }

  function MaxNum(rows: seq<Line>): int
    requires rows != []
  {
    if |rows| == 1 then rows[0].num
    else var m := MaxNum(rows[1..]); if rows[0].num > m then rows[0].num else m
  }

  function MinNum(rows: seq<Line>): int
    requires rows != []
  {
    if |rows| == 1 then rows[0].num
    else var m := MinNum(rows[1..]); if rows[0].num < m then rows[0].num else m
  }

  // SUM(LENGTH(text)) OVER (ORDER BY line_num DESC) at the row numbered `num`.
  function Running(rows: seq<Line>, num: int): nat {
    Chars(After(rows, num - 1))
  }

  // The rows among `some` whose running total in `rows` is over the budget.
  function OverBudget(some: seq<Line>, rows: seq<Line>, budget: nat): seq<Line> {
    if some == [] then []
    else if Running(rows, some[0].num) > budget then [some[0]] + OverBudget(some[1..], rows, budget)
    else OverBudget(some[1..], rows, budget)
  }

  function RowTrim(rows: seq<Line>, cap: nat): seq<Line> {
    if cap == 0 || rows == [] then rows else After(rows, MaxNum(rows) - cap)
  }

  function ByteTrim(rows: seq<Line>, byteCap: nat): seq<Line> {
    if byteCap == 0 || Chars(rows) <= byteCap then rows
    else
      var over := OverBudget(rows, rows, byteCap);
      if over == [] then rows else After(rows, MinNum(over))
  }

  function Trimmed(rows: seq<Line>, caps: Caps): seq<Line> {
    ByteTrim(RowTrim(rows, caps.cap), caps.byteCap)
  }

  class HistoryStore {
    const caps: Caps
    var rows: seq<Line>

    constructor (caps: Caps, rows: seq<Line>)
      ensures this.caps == caps && this.rows == rows
    {
      this.caps, this.rows := caps, rows;
    }

    // One transaction. `failure` is the statement that fails, if one does: an
    // insert, or behind the last of them the commit. A failed transaction
    // leaves no row of the batch.
    method AppendBatch(lines: seq<Line>, failure: Option<nat>) returns (committed: bool)
      modifies this
      ensures committed <==> lines == [] || failure.None? || failure.value > |lines|
      ensures rows == old(rows) + (if committed then lines else [])
    {
      if lines == [] {
        return true;
      }
      var working := rows;
      for i := 0 to |lines|
        invariant rows == old(rows) && working == rows + lines[..i]
        invariant failure.Some? ==> failure.value >= i
      {
        if failure == Some(i) {
          return false;
        }
        working := working + [lines[i]];
      }
      committed := failure != Some(|lines|);
      if committed {
        rows := working;
      }
    }

    method EnforceRowCap()
      modifies this
      ensures rows == RowTrim(old(rows), caps.cap)
      ensures caps.cap > 0 && old(rows) != [] ==>
                forall r :: r in rows <==> r in old(rows) && r.num > MaxNum(old(rows)) - caps.cap
      ensures caps.cap > 0 && Ascending(old(rows)) ==> |rows| <= caps.cap
    {
      if caps.cap > 0 && Ascending(rows) {
        RowTrimIsCapped(rows, caps.cap);
      }
      if caps.cap != 0 && rows != [] {
        AfterMembers(rows, MaxNum(rows) - caps.cap);
        rows := After(rows, MaxNum(rows) - caps.cap);
      }
    }

    method EnforceByteCap()
      modifies this
      ensures rows == ByteTrim(old(rows), caps.byteCap)
    {
      if caps.byteCap != 0 && Chars(rows) > caps.byteCap {
        var over := OverBudget(rows, rows, caps.byteCap);
        if over != [] {
          rows := After(rows, MinNum(over));
        }
      }
    }
  }

  // ── What the row cap keeps ─────────────────────────────────────────────

  predicate Ascending(xs: seq<Line>) {
    forall i, j :: 0 <= i < j < |xs| ==> xs[i].num < xs[j].num
  }

  // Exactly the rows numbered above the newest number less the cap.
  lemma RowTrimKeeps(rows: seq<Line>, cap: nat, r: Line)
    requires rows != []
    ensures r in RowTrim(rows, cap) <==> r in rows && (cap == 0 || r.num > MaxNum(rows) - cap)
  {
    hide After, MaxNum;
    AfterMembers(rows, MaxNum(rows) - cap);
  }

  // No two rows share a number, so those are at most `cap` rows.
  lemma RowTrimIsCapped(rows: seq<Line>, cap: nat)
    requires cap > 0 && Ascending(rows)
    ensures |RowTrim(rows, cap)| <= cap
  {
    if rows != [] {
      var newest := Newest(rows);
      var low := MaxNum(rows) - cap;
      hide MaxNum;
      var k := AfterIsSuffix(rows, low);
      var left := rows[k..];
      if left != [] {
        AfterMembers(rows, low);
        NumbersSpread(left);
        assert left[0] in After(rows, low) && left[|left| - 1] in rows;
      }
    }
  }

  lemma {:induction false} NumbersSpread(rows: seq<Line>)
    requires rows != [] && Ascending(rows)
    ensures rows[|rows| - 1].num >= rows[0].num + |rows| - 1
  {
    if |rows| > 1 {
      NumbersSpread(rows[..|rows| - 1]);
    }
  }

  // Deleting from ordered rows leaves a suffix of them.
  lemma {:induction false} AfterIsSuffix(xs: seq<Line>, num: int) returns (k: nat)
    requires Ascending(xs)
    ensures k <= |xs| && After(xs, num) == xs[k..]
    ensures forall i :: 0 <= i < |xs| ==> (xs[i].num > num <==> i >= k)
  {
    if xs == [] {
      k := 0;
    } else if xs[0].num > num {
      AfterKeepsAll(xs, num);
      k := 0;
    } else {
      var k' := AfterIsSuffix(xs[1..], num);
      assert forall i :: 1 <= i < |xs| ==> xs[i] == xs[1..][i - 1];
      k := k' + 1;
    }
  }

  // ── Facts about the queries ────────────────────────────────────────────

  lemma {:induction false} AfterMembers(rows: seq<Line>, num: int)
    ensures forall r :: r in After(rows, num) <==> r in rows && r.num > num
    ensures |After(rows, num)| <= |rows|
  {
    if rows != [] {
      AfterMembers(rows[1..], num);
      assert rows == [rows[0]] + rows[1..];
    }
  }

  lemma {:induction false} AfterKeepsAll(rows: seq<Line>, num: int)
    ensures (forall r :: r in rows ==> r.num > num) <==> After(rows, num) == rows
    ensures After(rows, num) != rows ==> |After(rows, num)| < |rows|
  {
    if rows != [] {
      AfterKeepsAll(rows[1..], num);
      AfterMembers(rows[1..], num);
      assert rows == [rows[0]] + rows[1..];
      if rows[0].num <= num {
        assert rows[0] in rows;
        assert |After(rows, num)| < |rows|;
      } else if After(rows[1..], num) != rows[1..] {
        assert After(rows, num)[1..] == After(rows[1..], num);
      }
    }
  }

  lemma {:induction false} AfterAfter(rows: seq<Line>, a: int, b: int)
    requires a <= b
    ensures After(After(rows, a), b) == After(rows, b)
  {
    if rows != [] {
      AfterAfter(rows[1..], a, b);
      if rows[0].num > a {
        assert ([rows[0]] + After(rows[1..], a))[1..] == After(rows[1..], a);
      }
    }
  }

  lemma {:induction false} AfterShrinks(rows: seq<Line>, a: int, b: int)
    requires a <= b
    ensures Chars(After(rows, b)) <= Chars(After(rows, a))
  {
    if rows != [] {
      AfterShrinks(rows[1..], a, b);
      assert rows[0].num > a ==> After(rows, a)[1..] == After(rows[1..], a);
      assert rows[0].num > b ==> After(rows, b)[1..] == After(rows[1..], b);
    }
  }

  lemma {:induction false} Oldest(rows: seq<Line>) returns (row: Line)
    requires rows != []
    ensures row in rows && row.num == MinNum(rows)
    ensures forall r :: r in rows ==> row.num <= r.num
  {
    row := rows[0];
    if |rows| > 1 {
      var other := Oldest(rows[1..]);
      assert rows == [rows[0]] + rows[1..];
      if other.num <= row.num { row := other; }
    }
  }

  lemma {:induction false} Newest(rows: seq<Line>) returns (row: Line)
    requires rows != []
    ensures row in rows && row.num == MaxNum(rows)
    ensures forall r :: r in rows ==> r.num <= row.num
  {
    row := rows[0];
    if |rows| > 1 {
      var other := Newest(rows[1..]);
      assert rows == [rows[0]] + rows[1..];
      if other.num >= row.num { row := other; }
    }
  }

  lemma {:induction false} IsOverBudget(some: seq<Line>, rows: seq<Line>, budget: nat, r: Line)
    ensures r in OverBudget(some, rows, budget) <==> r in some && Running(rows, r.num) > budget
  {
    if some != [] {
      IsOverBudget(some[1..], rows, budget, r);
      assert some == [some[0]] + some[1..];
    }
  }

  lemma RunningAtOldestIsTotal(rows: seq<Line>)
    requires rows != []
    ensures Running(rows, MinNum(rows)) == Chars(rows)
  {
    hide MinNum;
    var oldest := Oldest(rows);
    AfterKeepsAll(rows, oldest.num - 1);
  }

  // ── What one trim does ─────────────────────────────────────────────────

  // The byte cutoff is always the oldest row: its running total is the whole
  // total, so MIN picks it however few rows would have to go.
  lemma CutoffIsOldestRow(rows: seq<Line>, byteCap: nat)
    requires Chars(rows) > byteCap
    ensures var over := OverBudget(rows, rows, byteCap);
            over != [] && MinNum(over) == MinNum(rows)
  {
    hide After, OverBudget, MinNum;
    var over := OverBudget(rows, rows, byteCap);
    var oldest := Oldest(rows);
    RunningAtOldestIsTotal(rows);
    IsOverBudget(rows, rows, byteCap, oldest);
    var first := Oldest(over);
    IsOverBudget(rows, rows, byteCap, first);
  }

  // After one byte trim the store fits its budget if and only if it already
  // did, or all but the rows with the oldest number do.
  lemma ByteTrimFitsIff(rows: seq<Line>, byteCap: nat)
    requires byteCap != 0
    ensures Chars(ByteTrim(rows, byteCap)) <= byteCap <==>
            Chars(rows) <= byteCap || Chars(After(rows, MinNum(rows))) <= byteCap
  {
    if Chars(rows) > byteCap {
      CutoffIsOldestRow(rows, byteCap);
    }
  }

  // So "the newest rows fit the budget" does not hold after a trim.
  lemma ByteTrimCanLeaveTheStoreOverBudget()
    ensures var rows := [Line(1, "a"), Line(2, "bb"), Line(3, "cc")];
            ByteTrim(rows, 2) == rows[1..] && Chars(ByteTrim(rows, 2)) > 2
  {
    var rows := [Line(1, "a"), Line(2, "bb"), Line(3, "cc")];
    assert rows[1..][1..] == [Line(3, "cc")] && rows[1..] == [Line(2, "bb"), Line(3, "cc")];
    assert Chars(rows[1..]) == 4 && Chars(rows) == 5;
    CutoffIsOldestRow(rows, 2);
    assert MinNum(rows) == 1;
    AfterKeepsAll(rows[1..], 1);
  }

  // ── The documented cutoff ──────────────────────────────────────────────

  // Deleting up to the NEWEST row that is over the budget.
  function DocumentedTrim(rows: seq<Line>, byteCap: nat): seq<Line> {
    var over := OverBudget(rows, rows, byteCap);
    if over == [] then rows else After(rows, MaxNum(over))
  }

  // It keeps exactly the rows whose running total is within the budget.
  lemma DocumentedTrimKeeps(rows: seq<Line>, byteCap: nat, r: Line)
    requires r in rows
    ensures r in DocumentedTrim(rows, byteCap) <==> Running(rows, r.num) <= byteCap
  {
    hide After, OverBudget, Chars, MinNum, MaxNum;
    var over := OverBudget(rows, rows, byteCap);
    IsOverBudget(rows, rows, byteCap, r);
    if over != [] {
      var last := Newest(over);
      IsOverBudget(rows, rows, byteCap, last);
      AfterMembers(rows, last.num);
      if r.num <= last.num {
        AfterShrinks(rows, r.num - 1, last.num - 1);
      }
    }
  }

  // What it keeps fits the budget.
  lemma DocumentedTrimFits(rows: seq<Line>, byteCap: nat)
    ensures Chars(DocumentedTrim(rows, byteCap)) <= byteCap
  {
    hide After, OverBudget, MinNum, MaxNum;
    var over := OverBudget(rows, rows, byteCap);
    var left := DocumentedTrim(rows, byteCap);
    if over == [] {
      if Chars(rows) > byteCap {
        CutoffIsOldestRow(rows, byteCap);
      }
    } else if left != [] {
      var first := Oldest(left);
      AfterMembers(rows, MaxNum(over));
      DocumentedTrimKeeps(rows, byteCap, first);
      AfterAfter(rows, MaxNum(over), first.num - 1);
      AfterKeepsAll(left, first.num - 1);
    }
  }

  // Repeating the trim the code performs until the budget is met.
  function TrimUntilFits(rows: seq<Line>, byteCap: nat): seq<Line>
    decreases |rows|
  {
    if byteCap == 0 || Chars(rows) <= byteCap then rows
    else
      ByteTrimDropsOldest(rows, byteCap);
      TrimUntilFits(ByteTrim(rows, byteCap), byteCap)
  }

  lemma ByteTrimDropsOldest(rows: seq<Line>, byteCap: nat)
    requires byteCap != 0 && Chars(rows) > byteCap
    ensures ByteTrim(rows, byteCap) == After(rows, MinNum(rows))
    ensures |ByteTrim(rows, byteCap)| < |rows|
  {
    hide After, OverBudget, MinNum;
    CutoffIsOldestRow(rows, byteCap);
    var oldest := Oldest(rows);
    AfterKeepsAll(rows, oldest.num);
  }

  // The code's trim, repeated, ends where the documented one goes at once.
  lemma {:induction false} RepeatedTrimIsDocumentedTrim(rows: seq<Line>, byteCap: nat)
    requires byteCap != 0
    ensures TrimUntilFits(rows, byteCap) == DocumentedTrim(rows, byteCap)
    decreases |rows|
  {
    hide After, OverBudget, MinNum;
    if Chars(rows) <= byteCap {
      WithinBudgetNothingIsOver(rows, byteCap);
    } else {
      ByteTrimDropsOldest(rows, byteCap);
      RepeatedTrimIsDocumentedTrim(ByteTrim(rows, byteCap), byteCap);
      DocumentedTrimAbsorbsOne(rows, byteCap);
    }
  }

  lemma WithinBudgetNothingIsOver(rows: seq<Line>, byteCap: nat)
    requires Chars(rows) <= byteCap
    ensures OverBudget(rows, rows, byteCap) == []
  {
    hide After, OverBudget, Chars, MinNum;
    var over := OverBudget(rows, rows, byteCap);
    if over != [] {
      IsOverBudget(rows, rows, byteCap, over[0]);
      RunningAtOldestIsTotal(rows);
      var oldest := Oldest(rows);
      AfterShrinks(rows, oldest.num - 1, over[0].num - 1);
    }
  }

  lemma DocumentedTrimAbsorbsOne(rows: seq<Line>, byteCap: nat)
    requires byteCap != 0 && Chars(rows) > byteCap
    ensures DocumentedTrim(After(rows, MinNum(rows)), byteCap) == DocumentedTrim(rows, byteCap)
  {
    hide After, OverBudget, MinNum, MaxNum;
    CutoffIsOldestRow(rows, byteCap);
    var low := MinNum(rows);
    var rest := After(rows, low);
    var (over, overRest) := (OverBudget(rows, rows, byteCap), OverBudget(rest, rest, byteCap));
    var top := Newest(over);
    OverBudgetAfter(rows, low, byteCap, top);
    if overRest == [] {
      assert top.num == low by {
        IsOverBudget(rows, rows, byteCap, top);
        var oldest := Oldest(rows);
      }
    } else {
      var topRest := Newest(overRest);
      OverBudgetAfter(rows, low, byteCap, topRest);
      assert topRest.num == top.num;
      AfterAfter(rows, low, top.num);
    }
  }

  // Rows newer than `low` have the same running total without the older rows.
  lemma OverBudgetAfter(rows: seq<Line>, low: int, byteCap: nat, r: Line)
    ensures var rest := After(rows, low);
            r in OverBudget(rest, rest, byteCap) <==> r in OverBudget(rows, rows, byteCap) && r.num > low
  {
    hide After, OverBudget, Chars, MinNum, MaxNum;
    var rest := After(rows, low);
    IsOverBudget(rows, rows, byteCap, r);
    IsOverBudget(rest, rest, byteCap, r);
    AfterMembers(rows, low);
    if r.num > low {
      AfterAfter(rows, low, r.num - 1);
    }
  }
}
