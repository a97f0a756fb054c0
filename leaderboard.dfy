/**
 * The leaderboard of `leaderboard.py`. `update_leaderboard` replaces the first entry
 * stored for the result's model, or appends the result when the model has none, then
 * sorts the list by F1, highest first. `generate_html` writes one table row per entry:
 * its rank, a medal for the first three places, and a display date.
 *
 * An entry is the record stored in `results.json`, reduced to the fields read here.
 */
module Leaderboard {
  import opened Wrappers
  import opened Sorting

  datatype Entry = Entry(modelName: string, f1Score: real, precision: real, recall: real, date: Option<string>)

  // ---------------------------------------------------------------------
  // update_leaderboard
  // ---------------------------------------------------------------------

  /** The position of the first entry stored for `name`, if there is one. */
  function FirstEntryOf(board: seq<Entry>, name: string): (k: Option<nat>)
    ensures k.Some? ==> k.value < |board| && board[k.value].modelName == name
    ensures k.Some? ==> forall j :: 0 <= j < k.value ==> board[j].modelName != name
    ensures k.None? <==> forall j :: 0 <= j < |board| ==> board[j].modelName != name
  {
    if board == [] then None
    else if board[0].modelName == name then Some(0)
    else
      match FirstEntryOf(board[1..], name)
      case Some(k) => Some(k + 1)
      case None =>
        assert forall j :: 1 <= j < |board| ==> board[j] == board[1..][j - 1];
        None
  }

  /** The list after the for-else loop: the first entry of the model replaced, or the result appended. */
  function Upserted(board: seq<Entry>, result: Entry): seq<Entry>
  {
    match FirstEntryOf(board, result.modelName)
    case Some(i) => board[i := result]
    case None => board + [result]
  }

  /** `sort(key=lambda x: x["f1_score"], reverse=True)`. */
  predicate HigherF1(a: Entry, b: Entry) {
    a.f1Score > b.f1Score
  }

  lemma F1Order()
    ensures StrictWeakOrder(HigherF1)
  {
  }

  /** `leaderboard` after `update_leaderboard`, before it is saved. */
  function Updated(board: seq<Entry>, result: Entry): seq<Entry>
  {
    SortBy(Upserted(board, result), HigherF1)
  }

  /**
   * The in-memory part of `update_leaderboard`: the for-else loop over the entries,
   * then the sort.
   */
  method UpdateLeaderboard(board: seq<Entry>, result: Entry) returns (updated: seq<Entry>)
    ensures updated == Updated(board, result)
  {
    var entries := board;
    var replaced := false;
    var i := 0;
    while i < |entries| && !replaced
      invariant 0 <= i <= |board|
      invariant !replaced ==> entries == board && forall j :: 0 <= j < i ==> board[j].modelName != result.modelName
      invariant replaced ==> entries == Upserted(board, result)
      decreases |entries| - i, !replaced
    {
      if entries[i].modelName == result.modelName {
        assert FirstEntryOf(board, result.modelName) == Some(i);
        entries := entries[i := result];
        replaced := true;
      } else {
        i := i + 1;
      }
    }
    if !replaced {
      assert FirstEntryOf(board, result.modelName).None?;
      entries := entries + [result];
    }
    updated := SortBy(entries, HigherF1);
  }

  /** A model that already has an entry: its first entry becomes the result, nothing else changes. */
  lemma UpsertExisting(board: seq<Entry>, result: Entry, i: nat)
    requires i < |board| && board[i].modelName == result.modelName
    requires forall j :: 0 <= j < i ==> board[j].modelName != result.modelName
    ensures |Upserted(board, result)| == |board|
    ensures Upserted(board, result)[i] == result
    ensures forall j :: 0 <= j < |board| && j != i ==> Upserted(board, result)[j] == board[j]
  {
    var k := FirstEntryOf(board, result.modelName);
    assert k.Some?;
    assert !(k.value < i) && !(k.value > i);
  }

  /** A model without an entry: the result is appended after the others. */
  lemma UpsertNew(board: seq<Entry>, result: Entry)
    requires forall j :: 0 <= j < |board| ==> board[j].modelName != result.modelName
    ensures |Upserted(board, result)| == |board| + 1
    ensures Upserted(board, result)[..|board|] == board && Upserted(board, result)[|board|] == result
  {
    assert FirstEntryOf(board, result.modelName).None?;
  }

  /**
   * Whichever branch runs, the result is on the board, every entry of another model
   * stays, and the only entry that can go is one of the result's own model.
   */
  lemma {:induction false} UpsertKeeps(board: seq<Entry>, result: Entry)
    ensures result in Upserted(board, result)
    ensures forall e :: e in board && e.modelName != result.modelName ==> e in Upserted(board, result)
    ensures forall e :: e in Upserted(board, result) ==> e == result || e in board
  {
    var u := Upserted(board, result);
    match FirstEntryOf(board, result.modelName)
    case Some(i) =>
      assert u == board[i := result];
      assert u[i] == result;
      forall e | e in board && e.modelName != result.modelName ensures e in u {
        var j :| 0 <= j < |board| && board[j] == e;
        assert u[j] == e;
      }
      forall e | e in u ensures e == result || e in board {
        var j :| 0 <= j < |u| && u[j] == e;
        if j != i {
          assert board[j] == e;
        }
      }
    case None =>
      assert u == board + [result];
      assert u[|board|] == result;
  }

  /** Each model has at most one entry. */
  ghost predicate OneEntryPerModel(board: seq<Entry>) {
    forall i, j :: 0 <= i < j < |board| ==> board[i].modelName != board[j].modelName
  }

  /** Upserting keeps one entry per model. */
  lemma {:induction false} UpsertOneEntryPerModel(board: seq<Entry>, result: Entry)
    requires OneEntryPerModel(board)
    ensures OneEntryPerModel(Upserted(board, result))
  {
    var u := Upserted(board, result);
    match FirstEntryOf(board, result.modelName)
    case Some(k) =>
      assert u == board[k := result];
      forall i, j | 0 <= i < j < |u| ensures u[i].modelName != u[j].modelName {
        if i == k {
          assert u[j] == board[j];
        } else if j == k {
          assert u[i] == board[i];
        } else {
          assert u[i] == board[i] && u[j] == board[j];
        }
      }
    case None =>
      assert u == board + [result];
      forall i, j | 0 <= i < j < |u| ensures u[i].modelName != u[j].modelName {
        if j == |board| {
          assert u[i] == board[i];
        } else {
          assert u[i] == board[i] && u[j] == board[j];
        }
      }
  }

  /**
   * The saved list holds the upserted entries, ordered by F1 from highest to lowest,
   * with entries of equal F1 in the order the for-else loop left them.
   */
  lemma {:induction false} UpdatedMeaning(board: seq<Entry>, result: Entry, p: Entry)
    ensures multiset(Updated(board, result)) == multiset(Upserted(board, result))
    ensures forall i, j :: 0 <= i < j < |Updated(board, result)| ==>
              Updated(board, result)[i].f1Score >= Updated(board, result)[j].f1Score
    ensures TiedWith(Updated(board, result), p, HigherF1) == TiedWith(Upserted(board, result), p, HigherF1)
  {
    F1Order();
    SortByPermutes(Upserted(board, result), HigherF1);
    SortBySorted(Upserted(board, result), HigherF1);
    SortByStable(Upserted(board, result), p, HigherF1);
  }

  /** After an update the result is on the board, with an F1 no higher than the first row's. */
  lemma {:induction false} UpdatedHoldsResult(board: seq<Entry>, result: Entry)
    ensures result in Updated(board, result)
    ensures Updated(board, result)[0].f1Score >= result.f1Score
  {
    UpsertKeeps(board, result);
    UpdatedMeaning(board, result, result);
    var u := Updated(board, result);
    assert result in multiset(u);
    var k :| 0 <= k < |u| && u[k] == result;
    if k > 0 {
      assert u[0].f1Score >= u[k].f1Score;
    }
  }

  // ---------------------------------------------------------------------
  // generate_html
  // ---------------------------------------------------------------------

  /** The medal badge before a model name: the first three places get one. */
  function MedalAt(i: nat): (medal: string)
    ensures medal != "" <==> i < 3
  {
    if i == 0 then "<span class=\"medal gold\">1</span>"
    else if i == 1 then "<span class=\"medal silver\">2</span>"
    else if i == 2 then "<span class=\"medal bronze\">3</span>"
    else ""
  }

  /** `display_date`: the formatted date, or `Unknown` when the date is missing or does not parse. */
  function DisplayDate(e: Entry, format: string -> Option<string>): (shown: string)
    ensures e.date.Some? && format(e.date.value).Some? ==> shown == format(e.date.value).value
    ensures e.date.None? || format(e.date.value).None? ==> shown == "Unknown"
  {
    match e.date
    case None => "Unknown"
    case Some(d) => format(d).GetOr("Unknown")
  }

  /** The cells of one table row. */
  datatype Row = Row(rank: nat, medal: string, modelName: string, f1Score: real, precision: real, recall: real,
                     displayDate: string)

  function RowAt(i: nat, e: Entry, format: string -> Option<string>): Row {
    Row(i + 1, MedalAt(i), e.modelName, e.f1Score, e.precision, e.recall, DisplayDate(e, format))
  }

  /** The rows `generate_html` emits, one per entry in order, through its `for i, entry in enumerate` loop. */
  method TableRows(board: seq<Entry>, format: string -> Option<string>) returns (rows: seq<Row>)
    ensures |rows| == |board|
    ensures forall i :: 0 <= i < |board| ==> rows[i] == RowAt(i, board[i], format)
  {
    rows := [];
    var i := 0;
    while i < |board|
      invariant 0 <= i <= |board|
      invariant |rows| == i
      invariant forall j :: 0 <= j < i ==> rows[j] == RowAt(j, board[j], format)
    {
      rows := rows + [RowAt(i, board[i], format)];
      i := i + 1;
    }
  }

  /**
   * Ranks count from 1 in board order; exactly the first three rows carry a medal, gold,
   * silver and bronze in that order; every row shows its entry's model and figures.
   */
  lemma RowsMeaning(board: seq<Entry>, format: string -> Option<string>, rows: seq<Row>)
    requires |rows| == |board|
    requires forall i :: 0 <= i < |board| ==> rows[i] == RowAt(i, board[i], format)
    ensures forall i :: 0 <= i < |rows| ==> rows[i].rank == i + 1 && rows[i].modelName == board[i].modelName
    ensures forall i :: 0 <= i < |rows| ==> (rows[i].medal != "" <==> rows[i].rank <= 3)
    ensures forall i, j :: 0 <= i < j < |rows| && rows[i].medal != "" ==> rows[i].medal != rows[j].medal
  {
    forall i, j | 0 <= i < j < |rows| && rows[i].medal != "" ensures rows[i].medal != rows[j].medal {
      if j < 3 {
        MedalsDistinct(i, j);
      }
    }
  }

  /** The three badges differ: gold, silver and bronze. */
  lemma MedalsDistinct(i: nat, j: nat)
    requires i < j < 3
    ensures MedalAt(i) != MedalAt(j)
  {
    assert MedalAt(0)[19] == 'g' && MedalAt(1)[19] == 's' && MedalAt(2)[19] == 'b';
  }

  /** After an update, the gold row is the model with the highest F1 on the board. */
  lemma {:induction false} GoldHasBestF1(board: seq<Entry>, result: Entry, format: string -> Option<string>,
                                         rows: seq<Row>)
    requires var u := Updated(board, result);
             |rows| == |u| && forall i :: 0 <= i < |u| ==> rows[i] == RowAt(i, u[i], format)
    ensures rows != [] && rows[0].rank == 1 && rows[0].medal == "<span class=\"medal gold\">1</span>"
    ensures forall i :: 0 <= i < |rows| ==> rows[0].f1Score >= rows[i].f1Score
  {
    UpdatedHoldsResult(board, result);
    UpdatedMeaning(board, result, result);
  }
}
