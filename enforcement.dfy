/**
 * The row loop of enforce_bans_on_sub: for one target sub, every ledger row is
 * turned into at most one platform call or one new ledger row.
 */
module Enforcement {
  import opened Text
  import opened Ledger

  /** What one pass reads besides the rows; the bans and the moderators are fetched before the loop. */
  datatype Context = Context(
    subName: string,                   // the sub being enforced
    currentBans: map<string, string>,  // its ban list: lowercased username -> ban note ("" when none)
    mods: set<string>,                 // its moderators, lowercased
    exemptUsers: set<string>,          // the configured exempt users, lowercased
    isForgiven: string -> bool,        // the forgiveness test applied to a username
    reasonTag: string,                 // the reason text the bot puts on its own bans
    now: string)                       // the time stamp written into logged rows

  /** What the loop does with one row. */
  datatype Decision =
    | InvalidRow                                  // blank Username or SourceSub: skipped
    | LiftBan(user: string, sourceSub: string)    // forgiven and banned here under the bot's reason: unban
    | LogManualUnban(entry: Row)                  // not banned here, no manual override: row appended
    | NoAction
    | ImposeBan(user: string, sourceSub: string)  // the ban call after the final guard

  const ManualUnbanReason: string := "Manual unban detected"

  /** The ManualOverride cell says yes: "yes" or "true" once trimmed and lowercased. */
  predicate OverrideSet(row: Row) {
    Lower(Strip(row.manualOverride)) in {"yes", "true"}
  }

  /** The ban found for this user carries the bot's reason text, compared case-insensitively. */
  predicate BannedByBot(user: string, ctx: Context) {
    Lower(user) in ctx.currentBans && Contains(Lower(ctx.currentBans[Lower(user)]), Lower(ctx.reasonTag))
  }

  /** A row with both Username and SourceSub present once trimmed. */
  predicate Valid(row: Row) {
    Strip(row.username) != "" && Strip(row.sourceSub) != ""
  }

  /** A valid row of a forgiven user who is banned here under the bot's reason. */
  predicate Lifts(row: Row, ctx: Context) {
    Valid(row) && ctx.isForgiven(Strip(row.username)) && BannedByBot(Strip(row.username), ctx)
  }

  /** The row the loop appends for a user found unbanned without an override. */
  function ManualUnbanEntry(user: string, sourceSub: string, ctx: Context): Row {
    Row(user, sourceSub, ManualUnbanReason, ctx.now, "", "", "", ctx.subName, ctx.now, "")
  }

  /**
   * One iteration of the row loop. Every row that reaches the final guard is
   * already banned, so the ban call after it is never made.
   */
  function Decide(row: Row, ctx: Context): (d: Decision)
    ensures d.InvalidRow? <==> !Valid(row)
    ensures d.LiftBan? <==> Lifts(row, ctx)
    ensures Valid(row) && ctx.isForgiven(Strip(row.username)) ==> d.LiftBan? || d.NoAction?
    ensures Valid(row) && !ctx.isForgiven(Strip(row.username)) && Lower(Strip(row.username)) !in ctx.currentBans ==>
      d == (if OverrideSet(row) then NoAction
            else LogManualUnban(ManualUnbanEntry(Strip(row.username), Strip(row.sourceSub), ctx)))
    ensures Valid(row) && !ctx.isForgiven(Strip(row.username)) && Lower(Strip(row.username)) in ctx.currentBans ==>
      d == NoAction
    ensures d.LogManualUnban? ==> d.entry == ManualUnbanEntry(Strip(row.username), Strip(row.sourceSub), ctx)
    ensures d.LiftBan? ==> d.user == Strip(row.username) && d.sourceSub == Strip(row.sourceSub)
    ensures !d.ImposeBan?
  {
    var user := Strip(row.username);
    var sourceSub := Strip(row.sourceSub);
    if user == "" || sourceSub == "" then InvalidRow
    else
      var userLower := Lower(user);
      var alreadyBanned := userLower in ctx.currentBans;
      var isModUser := userLower in ctx.mods;
      var isExempt := userLower in ctx.exemptUsers;
      if ctx.isForgiven(user) then
        if alreadyBanned && Contains(Lower(ctx.currentBans[userLower]), Lower(ctx.reasonTag))
        then LiftBan(user, sourceSub) else NoAction
      else if !alreadyBanned then
        if !OverrideSet(row) then LogManualUnban(ManualUnbanEntry(user, sourceSub, ctx)) else NoAction
      else if alreadyBanned || isExempt || isModUser then NoAction
      else ImposeBan(user, sourceSub)
  }

  /** An entry of the public action log (log_public_action). */
  datatype PublicLog = PublicLog(action: string, user: string, sub: string, sourceSub: string, actor: string, detail: string)

  function Decisions(rows: seq<Row>, ctx: Context): seq<Decision> {
    seq(|rows|, i requires 0 <= i < |rows| => Decide(rows[i], ctx))
  }

  /** The rows appended to the ledger, in loop order. */
  function Appended(ds: seq<Decision>): seq<Row>
  {
    if ds == [] then []
    else Appended(ds[..|ds| - 1]) + (if ds[|ds| - 1].LogManualUnban? then [ds[|ds| - 1].entry] else [])
  }

  /** A lift whose platform call went through: the user is not among those whose calls raise. */
  predicate Lifted(d: Decision, failing: set<string>) {
    d.LiftBan? && Lower(d.user) !in failing
  }

  /** The users, lowercased, that the pass removes from the sub's live ban list. */
  function Unbanned(ds: seq<Decision>, failing: set<string>): set<string> {
    set i | 0 <= i < |ds| && Lifted(ds[i], failing) :: Lower(ds[i].user)
  }

  /** The public log entries, in loop order: one per unban that went through. */
  function Logs(ds: seq<Decision>, failing: set<string>, ctx: Context): seq<PublicLog>
  {
    if ds == [] then []
    else
      var d := ds[|ds| - 1];
      Logs(ds[..|ds| - 1], failing, ctx)
        + (if Lifted(d, failing) then [PublicLog("UNBANNED", d.user, ctx.subName, d.sourceSub, "auto", "Forgiven")] else [])
  }

  /**
   * Only forgiven users who are banned here under the bot's reason are unbanned,
   * and an unban is never lost to another row's failure.
   */
  lemma UnbannedExactly(rows: seq<Row>, ctx: Context, failing: set<string>, u: string)
    ensures u in Unbanned(Decisions(rows, ctx), failing) <==>
      (u !in failing && exists i :: 0 <= i < |rows| && Lifts(rows[i], ctx) && Lower(Strip(rows[i].username)) == u)
  {
    var ds := Decisions(rows, ctx);
    if u in Unbanned(ds, failing) {
      var i :| 0 <= i < |ds| && Lifted(ds[i], failing) && Lower(ds[i].user) == u;
      LiftedRow(rows, ctx, failing, i);
    }
    if u !in failing && exists i :: 0 <= i < |rows| && Lifts(rows[i], ctx) && Lower(Strip(rows[i].username)) == u {
      var i :| 0 <= i < |rows| && Lifts(rows[i], ctx) && Lower(Strip(rows[i].username)) == u;
      LiftedRow(rows, ctx, failing, i);
      assert Lower(ds[i].user) in Unbanned(ds, failing);
    }
  }

  /** Row i's unban goes through exactly when the row lifts and the user's call does not fail. */
  lemma LiftedRow(rows: seq<Row>, ctx: Context, failing: set<string>, i: nat)
    requires i < |rows|
    ensures Lifted(Decisions(rows, ctx)[i], failing) <==> Lifts(rows[i], ctx) && Lower(Strip(rows[i].username)) !in failing
    ensures Decisions(rows, ctx)[i].LiftBan? ==> Decisions(rows, ctx)[i].user == Strip(rows[i].username)
  {
    assert Decisions(rows, ctx)[i] == Decide(rows[i], ctx);
  }

  /** The positions of the lifts that went through. */
  function LiftedAt(ds: seq<Decision>, failing: set<string>): set<int> {
    set i | 0 <= i < |ds| && Lifted(ds[i], failing)
  }

  lemma LiftedAtStep(ds: seq<Decision>, failing: set<string>)
    requires ds != []
    ensures LiftedAt(ds, failing) == LiftedAt(ds[..|ds| - 1], failing) + (if Lifted(ds[|ds| - 1], failing) then {|ds| - 1} else {})
    ensures |ds| - 1 !in LiftedAt(ds[..|ds| - 1], failing)
  {
    var init := ds[..|ds| - 1];
    assert forall i :: 0 <= i < |init| ==> init[i] == ds[i];
  }

  /** The pass never bans: every public log entry is an unban, one per lift that went through. */
  lemma {:induction false} LogsAreUnbans(ds: seq<Decision>, failing: set<string>, ctx: Context)
    ensures forall e :: e in Logs(ds, failing, ctx) ==> e.action == "UNBANNED" && e.detail == "Forgiven"
    ensures |Logs(ds, failing, ctx)| == |LiftedAt(ds, failing)|
  {
    if ds != [] {
      LogsAreUnbans(ds[..|ds| - 1], failing, ctx);
      LiftedAtStep(ds, failing);
    }
  }

  /** A ledger row written for a manual unban on this sub during this pass. */
  predicate IsManualUnbanEntry(e: Row, ctx: Context) {
    e.reason == ManualUnbanReason && e.actionSub == ctx.subName && e.manualOverride == "" && e.timestamp == ctx.now
  }

  lemma {:induction false} AppendedEntries(ds: seq<Decision>, ctx: Context)
    requires forall k :: 0 <= k < |ds| && ds[k].LogManualUnban? ==> IsManualUnbanEntry(ds[k].entry, ctx)
    ensures forall e :: e in Appended(ds) ==> IsManualUnbanEntry(e, ctx)
    ensures |Appended(ds)| <= |ds|
  {
    if ds != [] {
      AppendedEntries(ds[..|ds| - 1], ctx);
    }
  }

  /** Every row the pass appends is a manual-unban entry for this sub, at most one per ledger row. */
  lemma AppendedAreManualUnbans(rows: seq<Row>, ctx: Context)
    ensures forall e :: e in Appended(Decisions(rows, ctx)) ==> IsManualUnbanEntry(e, ctx)
    ensures |Appended(Decisions(rows, ctx))| <= |rows|
  {
    var ds := Decisions(rows, ctx);
    forall k | 0 <= k < |ds| && ds[k].LogManualUnban? ensures IsManualUnbanEntry(ds[k].entry, ctx) {
      assert ds[k] == Decide(rows[k], ctx);
    }
    AppendedEntries(ds, ctx);
  }

  /** What one more decision adds to each of the pass's three outcomes. */
  lemma Step(ds: seq<Decision>, i: nat, failing: set<string>, ctx: Context)
    requires i < |ds|
    ensures Appended(ds[..i + 1]) == Appended(ds[..i]) + (if ds[i].LogManualUnban? then [ds[i].entry] else [])
    ensures Logs(ds[..i + 1], failing, ctx) == Logs(ds[..i], failing, ctx)
      + (if Lifted(ds[i], failing) then [PublicLog("UNBANNED", ds[i].user, ctx.subName, ds[i].sourceSub, "auto", "Forgiven")] else [])
    ensures Unbanned(ds[..i + 1], failing) == Unbanned(ds[..i], failing) + (if Lifted(ds[i], failing) then {Lower(ds[i].user)} else {})
  {
    assert ds[..i + 1][..i] == ds[..i];
  }

  /** The enforced sub as the bot sees it. */
  class Subreddit {
    var banned: map<string, string>  // live ban list: lowercased username -> note
    const failing: set<string>       // lowercased users whose unban call raises

    constructor (banned: map<string, string>, failing: set<string>)
      ensures this.banned == banned && this.failing == failing
    {
      this.banned := banned;
      this.failing := failing;
    }

    /** subreddit.banned.remove: raises for a failing user, otherwise lifts the ban. */
    method Remove(user: string) returns (ok: bool)
      modifies this
      ensures ok <==> Lower(user) !in failing
      ensures banned == if ok then old(banned) - {Lower(user)} else old(banned)
    {
      ok := Lower(user) !in failing;
      if ok {
        banned := banned - {Lower(user)};
      }
    }
  }

  /** Carries out one decision; a failing unban call is caught and skips only this row. */
  method Apply(sub: Subreddit, sheet: Sheet, d: Decision, ctx: Context) returns (logged: seq<PublicLog>)
    requires !d.ImposeBan?
    modifies sub, sheet
    ensures sheet.rows == old(sheet.rows) + (if d.LogManualUnban? then [d.entry] else [])
    ensures sub.banned == old(sub.banned) - (if Lifted(d, sub.failing) then {Lower(d.user)} else {})
    ensures logged == if Lifted(d, sub.failing) then [PublicLog("UNBANNED", d.user, ctx.subName, d.sourceSub, "auto", "Forgiven")] else []
  {
    logged := [];
    match d {
      case InvalidRow =>
      case NoAction =>
      case LiftBan(user, sourceSub) =>
        var ok := sub.Remove(user);
        if ok {
          logged := [PublicLog("UNBANNED", user, ctx.subName, sourceSub, "auto", "Forgiven")];
        }
      case LogManualUnban(entry) =>
        sheet.AppendRow(entry);
    }
  }

  /** Removing two key sets one after the other removes their union. */
  lemma RemoveTwice(m: map<string, string>, a: set<string>, b: set<string>)
    ensures (m - a) - b == m - (a + b)
  {
  }

  /** The decision for row i, computed the way the loop does. */
  method DecideRow(rows: seq<Row>, i: nat, ctx: Context) returns (d: Decision)
    requires i < |rows|
    ensures d == Decisions(rows, ctx)[i] && !d.ImposeBan?
  {
    d := Decide(rows[i], ctx);
  }

  /**
   * The loop itself: the ledger gains the manual-unban rows, the live ban list
   * loses the lifted users, the public log gets one entry per lift that went
   * through; a failed call skips only its own row.
   */
  method EnforceBansOnSub(sub: Subreddit, sheet: Sheet, rows: seq<Row>, ctx: Context) returns (logs: seq<PublicLog>)
    modifies sub, sheet
    ensures sheet.rows == old(sheet.rows) + Appended(Decisions(rows, ctx))
    ensures sub.banned == old(sub.banned) - Unbanned(Decisions(rows, ctx), sub.failing)
    ensures logs == Logs(Decisions(rows, ctx), sub.failing, ctx)
  {
    logs := [];
    var i := 0;
    while i < |rows|
      invariant 0 <= i <= |rows|
      invariant sheet.rows == old(sheet.rows) + Appended(Decisions(rows, ctx)[..i])
      invariant sub.banned == old(sub.banned) - Unbanned(Decisions(rows, ctx)[..i], sub.failing)
      invariant logs == Logs(Decisions(rows, ctx)[..i], sub.failing, ctx)
    {
      Step(Decisions(rows, ctx), i, sub.failing, ctx);
      var decision := DecideRow(rows, i, ctx);
      ghost var u := if Lifted(decision, sub.failing) then {Lower(decision.user)} else {};
      RemoveTwice(old(sub.banned), Unbanned(Decisions(rows, ctx)[..i], sub.failing), u);
      var logged := Apply(sub, sheet, decision, ctx);
      logs := logs + logged;
      i := i + 1;
    }
    assert Decisions(rows, ctx)[..i] == Decisions(rows, ctx);
  }
}
