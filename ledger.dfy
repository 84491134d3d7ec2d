/**
 * The ban ledger sheet and the two moderator overrides that rewrite it in place:
 * a pardon (upsert keyed by username) and a per-sub exemption.
 */
module Ledger {
  import opened Wrappers
  import opened Text
  import opened ExemptSubs

  /**
   * One data row of the ledger, one field per column, columns 1 to 10 in order.
   * The bot never reads columns 3, 6, 8 and 9 by name; they are named here by
   * what the bot writes into them.
   */
  datatype Row = Row(
    username: string,        // 1  Username
    sourceSub: string,       // 2  SourceSub
    reason: string,          // 3  "Manual unban detected" on rows the enforcer logs
    timestamp: string,       // 4  Timestamp
    manualOverride: string,  // 5  ManualOverride
    column6: string,         // 6
    mod: string,             // 7  Mod
    actionSub: string,       // 8  the sub a pardon or a detected unban came from
    column9: string,         // 9
    exemptSubs: string)      // 10 ExemptSubs

  /** A row cell names the user when both agree after lowercasing. */
  predicate SameUser(cell: string, username: string) {
    Lower(cell) == Lower(username)
  }

  /** The first row naming the user, as the enumerate loops of both overrides find it. */
  function FindUser(rows: seq<Row>, username: string): (r: Option<nat>)
    ensures r.Some? ==> r.value < |rows| && SameUser(rows[r.value].username, username)
    ensures r.Some? ==> forall j :: 0 <= j < r.value ==> !SameUser(rows[j].username, username)
    ensures r.None? <==> forall j :: 0 <= j < |rows| ==> !SameUser(rows[j].username, username)
  {
    if rows == [] then None
    else if SameUser(rows[0].username, username) then Some(0)
    else match FindUser(rows[1..], username)
      case None => None
      case Some(k) => Some(k + 1)
  }

  /** A matched row after a pardon: cells 5, 7 and 8 rewritten. */
  function Pardoned(row: Row, moderator: string, modsub: string): Row {
    row.(manualOverride := "yes", mod := moderator, actionSub := modsub)
  }

  /** The row a pardon appends when nobody matches. */
  function Placeholder(username: string, moderator: string, modsub: string, now: string): Row {
    Row(username, "manual", "", now, "yes", "", moderator, modsub, "", "")
  }

  /** The ledger after apply_override. */
  function Override(rows: seq<Row>, username: string, moderator: string, modsub: string, now: string): seq<Row> {
    match FindUser(rows, username)
    case Some(k) => rows[k := Pardoned(rows[k], moderator, modsub)]
    case None => rows + [Placeholder(username, moderator, modsub, now)]
  }

  /** The ledger after apply_exemption: only the ExemptSubs cell of the first matching row can change. */
  function Exempt(rows: seq<Row>, username: string, modsub: string): (r: seq<Row>)
    ensures |r| == |rows|
    ensures forall j :: 0 <= j < |rows| ==> r[j].(exemptSubs := rows[j].exemptSubs) == rows[j]
    ensures forall j :: 0 <= j < |rows| && r[j] != rows[j] ==> FindUser(rows, username) == Some(j)
    ensures FindUser(rows, username).None? ==> r == rows
  {
    match FindUser(rows, username)
    case Some(k) => rows[k := rows[k].(exemptSubs := MergeCell(rows[k].exemptSubs, modsub))]
    case None => rows
  }

  /**
   * When some row names the user, a pardon rewrites the first such row only:
   * ManualOverride becomes "yes", Mod the moderator, column 8 the sub; every
   * other cell and row stays, and nothing is appended.
   */
  lemma OverrideUpdatesFirstMatch(rows: seq<Row>, username: string, moderator: string, modsub: string, now: string, k: nat)
    requires k < |rows| && SameUser(rows[k].username, username)
    requires forall j :: 0 <= j < k ==> !SameUser(rows[j].username, username)
    ensures |Override(rows, username, moderator, modsub, now)| == |rows|
    ensures Override(rows, username, moderator, modsub, now)[k].manualOverride == "yes"
    ensures Override(rows, username, moderator, modsub, now)[k].mod == moderator
    ensures Override(rows, username, moderator, modsub, now)[k].actionSub == modsub
    ensures Override(rows, username, moderator, modsub, now)[k]
              .(manualOverride := rows[k].manualOverride, mod := rows[k].mod, actionSub := rows[k].actionSub) == rows[k]
    ensures forall j :: 0 <= j < |rows| && j != k ==> Override(rows, username, moderator, modsub, now)[j] == rows[j]
  {
    assert FindUser(rows, username) == Some(k);
  }

  /** When no row names the user, a pardon appends exactly one placeholder row and changes nothing else. */
  lemma OverrideAppendsPlaceholder(rows: seq<Row>, username: string, moderator: string, modsub: string, now: string)
    requires forall j :: 0 <= j < |rows| ==> !SameUser(rows[j].username, username)
    ensures Override(rows, username, moderator, modsub, now)
              == rows + [Row(username, "manual", "", now, "yes", "", moderator, modsub, "", "")]
  {
  }

  /** A pardon deletes no row and changes no row's Username; it adds at most one row. */
  lemma OverrideKeepsUsernames(rows: seq<Row>, username: string, moderator: string, modsub: string, now: string)
    ensures |rows| <= |Override(rows, username, moderator, modsub, now)| <= |rows| + 1
    ensures forall i :: 0 <= i < |rows| ==> Override(rows, username, moderator, modsub, now)[i].username == rows[i].username
  {
  }

  /** After one pardon the user is always found, at the row the pardon matched or appended. */
  lemma OverrideThenFound(rows: seq<Row>, username: string, moderator: string, modsub: string, now: string)
    ensures FindUser(Override(rows, username, moderator, modsub, now), username)
              == Some(match FindUser(rows, username) case Some(k) => k case None => |rows|)
  {
    var after := Override(rows, username, moderator, modsub, now);
    var k := match FindUser(rows, username) case Some(k) => k case None => |rows|;
    assert SameUser(after[k].username, username);
    assert forall j :: 0 <= j < k ==> after[j] == rows[j];
  }

  /**
   * Repeating a pardon never appends a second row: the second call matches the
   * row the first one matched or appended. Repeated with the same moderator and
   * sub, it leaves the ledger as the first call did.
   */
  lemma OverrideTwice(rows: seq<Row>, username: string, m1: string, s1: string, n1: string, m2: string, s2: string, n2: string)
    ensures |Override(Override(rows, username, m1, s1, n1), username, m2, s2, n2)| == |Override(rows, username, m1, s1, n1)|
    ensures Override(Override(rows, username, m1, s1, n1), username, m1, s1, n2) == Override(rows, username, m1, s1, n1)
  {
    OverrideThenFound(rows, username, m1, s1, n1);
  }

  /** The ExemptSubs cell of the matched row reads back as its old entries plus the sub. */
  lemma ExemptAddsSub(rows: seq<Row>, username: string, modsub: string, k: nat)
    requires IsSubName(modsub)
    requires FindUser(rows, username) == Some(k)
    ensures EntrySet(Exempt(rows, username, modsub)[k].exemptSubs) == EntrySet(rows[k].exemptSubs) + {Lower(modsub)}
    ensures StrictlySorted(Entries(Exempt(rows, username, modsub)[k].exemptSubs))
  {
    MergeCellReadsBack(rows[k].exemptSubs, modsub);
  }

  /** Exempting the same user in the same sub twice leaves the ledger as the first exemption did. */
  lemma ExemptIdempotent(rows: seq<Row>, username: string, modsub: string)
    requires IsSubName(modsub)
    ensures Exempt(Exempt(rows, username, modsub), username, modsub) == Exempt(rows, username, modsub)
  {
    var once := Exempt(rows, username, modsub);
    match FindUser(rows, username)
    case None =>
    case Some(k) =>
      var cell := MergeCell(rows[k].exemptSubs, modsub);
      assert once == rows[k := rows[k].(exemptSubs := cell)];
      assert forall j :: 0 <= j <= k ==> once[j].username == rows[j].username;
      assert FindUser(once, username) == Some(k);
      MergeCellIdempotent(rows[k].exemptSubs, modsub);
      assert once[k].(exemptSubs := MergeCell(once[k].exemptSubs, modsub)) == once[k];
  }

  /** The ledger sheet; rows[i] is sheet row i + 2, under the header row. */
  class Sheet {
    var rows: seq<Row>

    constructor (rows: seq<Row>)
      ensures this.rows == rows
    {
      this.rows := rows;
    }

    /** sheet.append_row */
    method AppendRow(row: Row)
      modifies this
      ensures rows == old(rows) + [row]
    {
      rows := rows + [row];
    }

    /** apply_override: pardon the user, matching an existing row or appending a placeholder; always reports success. */
    method ApplyOverride(username: string, moderator: string, modsub: string, now: string) returns (ok: bool)
      modifies this
      ensures ok
      ensures rows == Override(old(rows), username, moderator, modsub, now)
    {
      var i := 0;
      while i < |rows|
        invariant 0 <= i <= |rows| && rows == old(rows)
        invariant forall j :: 0 <= j < i ==> !SameUser(rows[j].username, username)
      {
        if Lower(rows[i].username) == Lower(username) {
          rows := rows[i := rows[i].(manualOverride := "yes")];
          rows := rows[i := rows[i].(mod := moderator)];
          rows := rows[i := rows[i].(actionSub := modsub)];
          return true;
        }
        i := i + 1;
      }
      rows := rows + [Placeholder(username, moderator, modsub, now)];
      return true;
    }

    /** apply_exemption: add the sub to the matching row's ExemptSubs; false, and nothing written, when no row matches. */
    method ApplyExemption(username: string, modsub: string) returns (found: bool)
      modifies this
      ensures found <==> FindUser(old(rows), username).Some?
      ensures rows == Exempt(old(rows), username, modsub)
    {
      var i := 0;
      while i < |rows|
        invariant 0 <= i <= |rows| && rows == old(rows)
        invariant forall j :: 0 <= j < i ==> !SameUser(rows[j].username, username)
      {
        if Lower(rows[i].username) == Lower(username) {
          var current := Lower(rows[i].exemptSubs);
          var parts := Keep(SplitOn(current, ','));
          var newField := Join(SortedDistinct(parts + [Lower(modsub)]), ", ");
          rows := rows[i := rows[i].(exemptSubs := newField)];
          return true;
        }
        i := i + 1;
      }
      return false;
    }
  }
}
