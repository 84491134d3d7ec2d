/**
 * The modmail scan: for each conversation, the last message is read as a
 * possible `/xsub pardon <user>` or `/xsub exempt <user>` command from a
 * moderator of the sub, and the ledger is rewritten accordingly.
 */
module Modmail {
  import opened Wrappers
  import opened Text
  import opened Ledger

  /** A modmail message as the scan reads it; a missing body or author name is "". */
  datatype Message = Message(body: string, author: string)

  /** A recognised command: the target user, and for a pardon the moderator who sent it. */
  datatype Command = Pardon(user: string, moderator: string) | Exemption(user: string)

  /** One sub's inbox for one scan: its moderators (lowercased) and its conversations, "new" then "mod". */
  datatype Inbox = Inbox(sub: string, mods: set<string>, conversations: seq<seq<Message>>)

  const PardonPrefix: string := "/xsub pardon"
  const ExemptPrefix: string := "/xsub exempt"

  /** `token.lstrip('u/').strip()`: every leading 'u' and '/' goes, not just a "u/" prefix. */
  function Target(token: string): string {
    Strip(LStripChars(token, {'u', '/'}))
  }

  /** The command, if any, that the last message of a conversation carries. */
  function Decide(conversation: seq<Message>, mods: set<string>): Option<Command>
  {
    if |conversation| == 0 then None
    else
      var last := conversation[|conversation| - 1];
      var body := Strip(last.body);
      var sender := Lower(last.author);
      if sender == "" || body == "" then None
      else if sender !in mods then None
      else if StartsWith(Lower(body), PardonPrefix) then
        var parts := Words(body);
        if |parts| >= 3 then Some(Pardon(Target(parts[2]), sender)) else None
      else if StartsWith(Lower(body), ExemptPrefix) then
        var parts := Words(body);
        if |parts| >= 3 then Some(Exemption(Target(parts[2]))) else None
      else None
  }

  /**
   * A conversation yields a command exactly when its last message is nonblank, comes
   * from a moderator, starts with one of the two command prefixes (in any case) and
   * has at least three tokens; the pardon prefix is tried first, the target is the
   * third token, and a pardon is credited to the sender.
   */
  lemma DecideSpec(conversation: seq<Message>, mods: set<string>)
    ensures |conversation| == 0 ==> Decide(conversation, mods) == None
    ensures |conversation| > 0 ==>
      var r := Decide(conversation, mods);
      var body := Strip(conversation[|conversation| - 1].body);
      var sender := Lower(conversation[|conversation| - 1].author);
      && (r.Some? <==> sender != "" && body != "" && sender in mods && |Words(body)| >= 3
                       && (StartsWith(Lower(body), PardonPrefix) || StartsWith(Lower(body), ExemptPrefix)))
      && (r.Some? ==> r.value.user == Target(Words(body)[2]))
      && (r.Some? ==> (r.value.Pardon? <==> StartsWith(Lower(body), PardonPrefix)))
      && (r.Some? && r.value.Pardon? ==> r.value.moderator == sender)
  {
  }

  /** Removing leading characters from a token leaves a whitespace-free suffix of it. */
  lemma LStripOfWord(token: string, chars: set<char>)
    requires IsWord(token)
    ensures var t := LStripChars(token, chars);
      t == token[|token| - |t|..] && forall c :: c in t ==> !IsSpace(c)
  {
    var t := LStripChars(token, chars);
    forall c | c in t ensures !IsSpace(c) {
      var i :| 0 <= i < |t| && t[i] == c;
      assert token[|token| - |t| + i] == c;
    }
  }

  /**
   * The target taken from a token has no whitespace, does not begin with 'u'
   * or '/', and is what is left of the token once those leading characters go.
   */
  lemma TargetShape(token: string)
    requires IsWord(token)
    ensures var t := Target(token);
      && t == LStripChars(token, {'u', '/'})
      && t == token[|token| - |t|..]
      && (t == [] || (t[0] != 'u' && t[0] != '/'))
      && forall c :: c in t ==> !IsSpace(c)
  {
    var t := LStripChars(token, {'u', '/'});
    LStripOfWord(token, {'u', '/'});
    if t != [] {
      assert t[0] in t && t[|t| - 1] in t;
    }
    StripOfStripped(t);
  }

  /** "u/uma" names "ma": the strip removes characters from a set, not the prefix "u/". */
  lemma TargetStripsCharacters()
    ensures Target("u/uma") == "ma"
  {
    LStripExample();
    assert !IsSpace('m') && !IsSpace('a');
    StripOfStripped("ma");
  }

  lemma LStripExample()
    ensures LStripChars("u/uma", {'u', '/'}) == "ma"
  {
    var cs := {'u', '/'};
    assert "ma"[0] == 'm' && 'm' !in cs;
    assert LStripChars("ma", cs) == "ma";
    assert "uma"[0] == 'u' && "uma"[1..] == "ma";
    assert LStripChars("uma", cs) == "ma";
    assert "/uma"[0] == '/' && "/uma"[1..] == "uma";
    assert LStripChars("/uma", cs) == "ma";
    assert "u/uma"[0] == 'u' && "u/uma"[1..] == "/uma";
  }

  function PardonReply(user: string): string {
    "\U{2705} u/" + user + " has been forgiven and will not be banned."
  }

  function ExemptReply(user: string, sub: string): string {
    "\U{2705} u/" + user + " has been exempted from bans in r/" + sub + "."
  }

  /** The ledger and the reply after handling one conversation of a sub's inbox. */
  function Handle(rows: seq<Row>, conversation: seq<Message>, mods: set<string>, sub: string, now: string): (seq<Row>, Option<string>)
  {
    match Decide(conversation, mods)
    case None => (rows, None)
    case Some(Pardon(user, moderator)) => (Override(rows, user, moderator, sub, now), Some(PardonReply(user)))
    case Some(Exemption(user)) =>
      (Exempt(rows, user, sub), if FindUser(rows, user).Some? then Some(ExemptReply(user, sub)) else None)
  }

  /** The ledger and the replies after handling conversations in order. */
  function Scan(rows: seq<Row>, conversations: seq<seq<Message>>, mods: set<string>, sub: string, now: string): (seq<Row>, seq<string>)
  {
    if conversations == [] then (rows, [])
    else
      var before := Scan(rows, conversations[..|conversations| - 1], mods, sub, now);
      var handled := Handle(before.0, conversations[|conversations| - 1], mods, sub, now);
      (handled.0, before.1 + (if handled.1.Some? then [handled.1.value] else []))
  }

  /** A conversation whose last message comes from someone who is not a moderator. */
  predicate FromOutsider(conversation: seq<Message>, mods: set<string>) {
    |conversation| > 0 && Lower(conversation[|conversation| - 1].author) !in mods
  }

  /** A conversation whose last sender is not a moderator carries no command. */
  lemma OutsiderCarriesNoCommand(conversation: seq<Message>, mods: set<string>)
    requires FromOutsider(conversation, mods)
    ensures Decide(conversation, mods) == None
  {
  }

  /** Messages from non-moderators never change the ledger and get no reply. */
  lemma {:induction false} OutsidersIgnored(rows: seq<Row>, conversations: seq<seq<Message>>, mods: set<string>, sub: string, now: string)
    requires forall i :: 0 <= i < |conversations| ==> FromOutsider(conversations[i], mods)
    ensures Scan(rows, conversations, mods, sub, now) == (rows, [])
  {
    if conversations != [] {
      var init := conversations[..|conversations| - 1];
      var last := conversations[|conversations| - 1];
      OutsidersIgnored(rows, init, mods, sub, now);
      var before := Scan(rows, init, mods, sub, now);
      OutsiderCarriesNoCommand(last, mods);
      var h := Handle(rows, last, mods, sub, now);
      assert h.0 == rows && h.1 == None;
      var r := Scan(rows, conversations, mods, sub, now);
      assert r.0 == rows;
      assert r.1 == [];
      assert r == (rows, []);
    }
  }

  /** No command deletes a ledger row or changes whose row it is; a row is added only by a pardon. */
  predicate Extends(before: seq<Row>, after: seq<Row>) {
    |before| <= |after| && forall i :: 0 <= i < |before| ==> after[i].username == before[i].username
  }

  lemma {:induction false} ScanExtendsLedger(rows: seq<Row>, conversations: seq<seq<Message>>, mods: set<string>, sub: string, now: string)
    ensures Extends(rows, Scan(rows, conversations, mods, sub, now).0)
    ensures |Scan(rows, conversations, mods, sub, now).0| <= |rows| + |conversations|
  {
    if conversations != [] {
      var init := conversations[..|conversations| - 1];
      ScanExtendsLedger(rows, init, mods, sub, now);
      HandleExtendsLedger(Scan(rows, init, mods, sub, now).0, conversations[|conversations| - 1], mods, sub, now);
    }
  }

  lemma HandleExtendsLedger(rows: seq<Row>, conversation: seq<Message>, mods: set<string>, sub: string, now: string)
    ensures Extends(rows, Handle(rows, conversation, mods, sub, now).0)
    ensures |Handle(rows, conversation, mods, sub, now).0| <= |rows| + 1
  {
    match Decide(conversation, mods)
    case None =>
    case Some(Pardon(user, moderator)) =>
      OverrideKeepsUsernames(rows, user, moderator, sub, now);
    case Some(Exemption(user)) =>
  }

  /** One sub's part of check_modmail: every conversation handled in order against the sheet. */
  method ScanInbox(sheet: Sheet, inbox: Inbox, now: string) returns (replies: seq<string>)
    modifies sheet
    ensures sheet.rows == Scan(old(sheet.rows), inbox.conversations, inbox.mods, inbox.sub, now).0
    ensures replies == Scan(old(sheet.rows), inbox.conversations, inbox.mods, inbox.sub, now).1
  {
    var conversations, mods, sub := inbox.conversations, inbox.mods, inbox.sub;
    replies := [];
    for i := 0 to |conversations|
      invariant sheet.rows == Scan(old(sheet.rows), conversations[..i], mods, sub, now).0
      invariant replies == Scan(old(sheet.rows), conversations[..i], mods, sub, now).1
    {
      assert conversations[..i + 1][..i] == conversations[..i];
      var reply := HandleConversation(sheet, conversations[i], mods, sub, now);
      if reply.Some? {
        replies := replies + [reply.value];
      }
    }
    assert conversations[..|conversations|] == conversations;
  }

  /** One conversation of the scan: decide, apply the override, and say what to reply. */
  method HandleConversation(sheet: Sheet, conversation: seq<Message>, mods: set<string>, sub: string, now: string)
    returns (reply: Option<string>)
    modifies sheet
    ensures sheet.rows == Handle(old(sheet.rows), conversation, mods, sub, now).0
    ensures reply == Handle(old(sheet.rows), conversation, mods, sub, now).1
  {
    reply := None;
    match Decide(conversation, mods) {
      case None =>
      case Some(Pardon(user, moderator)) =>
        var _ := sheet.ApplyOverride(user, moderator, sub, now);
        reply := Some(PardonReply(user));
      case Some(Exemption(user)) =>
        var found := sheet.ApplyExemption(user, sub);
        if found {
          reply := Some(ExemptReply(user, sub));
        }
    }
  }

  /** Every conversation of every inbox ends with a message from a non-moderator. */
  predicate OnlyOutsiders(inboxes: seq<Inbox>) {
    forall i, k :: 0 <= i < |inboxes| && 0 <= k < |inboxes[i].conversations| ==>
      FromOutsider(inboxes[i].conversations[k], inboxes[i].mods)
  }

  /** The ledger and the replies after scanning the inboxes in turn, each against the ledger the previous ones left. */
  function ScanAll(rows: seq<Row>, inboxes: seq<Inbox>, now: string): (seq<Row>, seq<string>) {
    if inboxes == [] then (rows, [])
    else
      var before := ScanAll(rows, inboxes[..|inboxes| - 1], now);
      var last := inboxes[|inboxes| - 1];
      var scanned := Scan(before.0, last.conversations, last.mods, last.sub, now);
      (scanned.0, before.1 + scanned.1)
  }

  /** The number of conversations in all the inboxes. */
  function ConversationCount(inboxes: seq<Inbox>): nat {
    if inboxes == [] then 0
    else ConversationCount(inboxes[..|inboxes| - 1]) + |inboxes[|inboxes| - 1].conversations|
  }

  /** Over all subs, no row is deleted or renamed, and at most one row is added per conversation. */
  lemma {:induction false} ScanAllExtendsLedger(rows: seq<Row>, inboxes: seq<Inbox>, now: string)
    ensures Extends(rows, ScanAll(rows, inboxes, now).0)
    ensures |ScanAll(rows, inboxes, now).0| <= |rows| + ConversationCount(inboxes)
  {
    if inboxes != [] {
      var init := inboxes[..|inboxes| - 1];
      var last := inboxes[|inboxes| - 1];
      ScanAllExtendsLedger(rows, init, now);
      ScanExtendsLedger(ScanAll(rows, init, now).0, last.conversations, last.mods, last.sub, now);
    }
  }

  /** When nobody but outsiders wrote last in any conversation, check_modmail changes nothing and replies nothing. */
  lemma {:induction false} ScanAllOutsidersIgnored(rows: seq<Row>, inboxes: seq<Inbox>, now: string)
    requires OnlyOutsiders(inboxes)
    ensures ScanAll(rows, inboxes, now) == (rows, [])
  {
    if inboxes != [] {
      var init := inboxes[..|inboxes| - 1];
      var last := inboxes[|inboxes| - 1];
      assert OnlyOutsiders(init) by {
        assert forall i :: 0 <= i < |init| ==> init[i] == inboxes[i];
      }
      ScanAllOutsidersIgnored(rows, init, now);
      assert forall k :: 0 <= k < |last.conversations| ==> FromOutsider(last.conversations[k], last.mods);
      OutsidersIgnored(rows, last.conversations, last.mods, last.sub, now);
      var r := ScanAll(rows, inboxes, now);
      assert r.0 == rows;
      assert r.1 == [];
      var empty: seq<string> := [];
      assert r == (rows, empty);
    }
  }

  /** check_modmail: every trusted sub's inbox scanned in turn; the replies of all subs in order. */
  method CheckModmail(sheet: Sheet, inboxes: seq<Inbox>, now: string) returns (replies: seq<string>)
    modifies sheet
    ensures sheet.rows == ScanAll(old(sheet.rows), inboxes, now).0
    ensures replies == ScanAll(old(sheet.rows), inboxes, now).1
  {
    replies := [];
    for i := 0 to |inboxes|
      invariant sheet.rows == ScanAll(old(sheet.rows), inboxes[..i], now).0
      invariant replies == ScanAll(old(sheet.rows), inboxes[..i], now).1
    {
      assert inboxes[..i + 1][..i] == inboxes[..i];
      var more := ScanInbox(sheet, inboxes[i], now);
      replies := replies + more;
    }
    assert inboxes[..|inboxes|] == inboxes;
  }
}
