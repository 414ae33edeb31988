/** The gate scanner endpoint (`POST /scan-checkin`): resolves a scanned code
    to an approved request, a returning visitor or a group, and toggles each
    resolved visitor between checked in and checked out by appending to the
    visitor log. */
module Scan {
  import opened Seqs
  import opened Text
  import opened Records
  import opened Database

  /** The endpoint's JSON replies. */
  datatype ScanResponse =
    | AuthRequired                                          // 401
    | BadRequest(message: string)                           // 400
    | Processed(message: string)                            // 200, one visitor
    | GroupProcessed(message: string, details: seq<string>) // 200, a group
    | NotRecognized                                         // 404

  function HttpStatus(r: ScanResponse): (code: int)
    ensures code == 200 <==> r.Processed? || r.GroupProcessed?
    ensures code == 401 <==> r.AuthRequired?
    ensures code == 400 <==> r.BadRequest?
    ensures code == 404 <==> r.NotRecognized?
  {
    match r
    case AuthRequired => 401
    case BadRequest(_) => 400
    case NotRecognized => 404
    case Processed(_) => 200
    case GroupProcessed(_, _) => 200
  }

  /** `data.get(key, "")` on the decoded JSON object. */
  function JsonGet(data: map<string, string>, key: string): string
  {
    if key in data then data[key] else ""
  }

  // ----- `_process_single_visitor`: the two-state toggle -----

  /** The log entry `_process_single_visitor` appends for visitor `vid`: a check-in under a
      fresh session when the visitor has no entry or the newest is a check-out, otherwise a
      check-out reusing the newest entry's session and approver. */
  function ToggleEntry(db: Db, vid: nat, usedCode: string, approvedBy: Option<UserId>, actor: Actor, today: Day): VisitorLog
    requires vid < |db.visitors|
  {
    var v := db.visitors[vid];
    if LatestIsIn(db.logs, ByVisitor(vid)) then
      var last := db.logs[Latest(db.logs, ByVisitor(vid)).value];
      VisitorLog(vid, v.name, v.email, v.number, v.lastPurpose, v.lastDestination, None,
                 CheckedOut, usedCode, last.sessionId, today,
                 None, None, Some(actor.id), actor.gateRole, last.approvedBy)
    else
      VisitorLog(vid, v.name, v.email, v.number, v.lastPurpose, v.lastDestination, None,
                 CheckedIn, usedCode, db.nextSession, today,
                 Some(actor.id), actor.gateRole, None, None, approvedBy)
  }

  /** The store after `_process_single_visitor`, and the action it reports. */
  function Toggle(db: Db, vid: nat, usedCode: string, approvedBy: Option<UserId>, actor: Actor, today: Day): (r: (Db, LogStatus))
    requires vid < |db.visitors|
    ensures r.0.requests == db.requests && r.0.visitors == db.visitors
    ensures |r.0.logs| == |db.logs| + 1 && r.0.logs[..|db.logs|] == db.logs
    ensures var e := r.0.logs[|db.logs|];
      && e.visitorId == vid && e.status == r.1 && e.uniqueCode == usedCode && e.day == today
      && e.name == db.visitors[vid].name && e.purpose == db.visitors[vid].lastPurpose
      && e.destination == db.visitors[vid].lastDestination
    ensures r.1 == CheckedOut <==> LatestIsIn(db.logs, ByVisitor(vid))
    ensures r.1 == CheckedIn ==>
      var e := r.0.logs[|db.logs|];
      && e.sessionId == db.nextSession && r.0.nextSession == db.nextSession + 1
      && e.checkInBy == Some(actor.id) && e.checkInGate == actor.gateRole
      && e.checkOutBy == None && e.approvedBy == approvedBy
    ensures r.1 == CheckedOut ==>
      var e := r.0.logs[|db.logs|];
      var last := db.logs[Latest(db.logs, ByVisitor(vid)).value];
      && e.sessionId == last.sessionId && e.approvedBy == last.approvedBy
      && e.checkOutBy == Some(actor.id) && e.checkOutGate == actor.gateRole
      && e.checkInBy == None && r.0.nextSession == db.nextSession
  {
    var e := ToggleEntry(db, vid, usedCode, approvedBy, actor, today);
    var db' := db.(logs := db.logs + [e], nextSession := if e.status == CheckedIn then db.nextSession + 1 else db.nextSession);
    assert db'.logs[..|db.logs|] == db.logs;
    (db', e.status)
  }

  /** A check-in's session id was never used by any earlier entry, and every toggle
      keeps the ledger invariant. */
  lemma ToggleKeepsSessions(db: Db, vid: nat, usedCode: string, approvedBy: Option<UserId>, actor: Actor, today: Day)
    requires vid < |db.visitors|
    requires SessionsWellFormed(db.logs, db.nextSession)
    ensures var r := Toggle(db, vid, usedCode, approvedBy, actor, today);
      && SessionsWellFormed(r.0.logs, r.0.nextSession)
      && (r.1 == CheckedIn ==> forall i :: 0 <= i < |db.logs| ==> db.logs[i].sessionId != r.0.logs[|db.logs|].sessionId)
  {
    var r := Toggle(db, vid, usedCode, approvedBy, actor, today);
    var e := r.0.logs[|db.logs|];
    assert r.0.logs == db.logs + [e];
    if r.1 == CheckedIn {
      AppendCheckInKeeps(db.logs, db.nextSession, e);
    } else {
      AppendCheckOutKeeps(db.logs, db.nextSession, e);
    }
  }

  /** Two consecutive toggles of one visitor alternate, and a check-out closes the session
      the preceding check-in opened, with the same approver. */
  lemma {:induction false} ToggleTwice(db: Db, vid: nat, code1: string, code2: string, approvedBy1: Option<UserId>,
                                       approvedBy2: Option<UserId>, actor1: Actor, actor2: Actor, today1: Day, today2: Day)
    requires vid < |db.visitors|
    ensures var r1 := Toggle(db, vid, code1, approvedBy1, actor1, today1);
      var r2 := Toggle(r1.0, vid, code2, approvedBy2, actor2, today2);
      var e1 := r1.0.logs[|db.logs|];
      var e2 := r2.0.logs[|db.logs| + 1];
      && r2.1 != r1.1
      && (r1.1 == CheckedIn ==> e2.sessionId == e1.sessionId && e2.approvedBy == e1.approvedBy)
  {
    var r1 := Toggle(db, vid, code1, approvedBy1, actor1, today1);
    var e1 := r1.0.logs[|db.logs|];
    assert r1.0.logs == db.logs + [e1];
    LatestAppend(db.logs, e1, ByVisitor(vid));
  }

  /** `_process_single_visitor`. */
  method ProcessSingleVisitor(store: Store, vid: nat, usedCode: string, approvedBy: Option<UserId>, actor: Actor, today: Day)
    returns (action: LogStatus)
    requires vid < |store.visitors|
    modifies store
    ensures (store.State(), action) == Toggle(old(store.State()), vid, usedCode, approvedBy, actor, today)
  {
    var v := store.visitors[vid];
    var last := Latest(store.logs, ByVisitor(vid));
    if last.None? || store.logs[last.value].status == CheckedOut {
      var sessionId := store.NewSessionId();
      store.AddLog(VisitorLog(vid, v.name, v.email, v.number, v.lastPurpose, v.lastDestination, None,
                              CheckedIn, usedCode, sessionId, today,
                              Some(actor.id), actor.gateRole, None, None, approvedBy));
      action := CheckedIn;
    } else {
      var prev := store.logs[last.value];
      store.AddLog(VisitorLog(vid, v.name, v.email, v.number, v.lastPurpose, v.lastDestination, None,
                              CheckedOut, usedCode, prev.sessionId, today,
                              None, None, Some(actor.id), actor.gateRole, prev.approvedBy));
      action := CheckedOut;
    }
  }

  // ----- Resolving the scanned code -----

  predicate IsApprovedCode(r: Request, code: string)
  {
    r.uniqueCode == code && r.status == Approve
  }

  predicate IsApprovedMember(r: Request, code: string)
  {
    r.groupCode == Some(code) && r.status == Approve
  }

  /** What a scanned code refers to. */
  datatype Match =
    | RequestCode(index: nat)
    | VisitorCode(visitorId: nat)
    | GroupCode(members: seq<Request>)
    | NoMatch

  /** The fixed priority: an Approve-status request with that code, else a visitor with
      that permanent QR code, else the Approve-status members of a group with that code. */
  function Resolve(requests: seq<Request>, visitors: seq<Visitor>, code: string): (m: Match)
    ensures m.RequestCode? <==> exists i :: 0 <= i < |requests| && IsApprovedCode(requests[i], code)
    ensures m.RequestCode? ==>
      && m.index < |requests| && IsApprovedCode(requests[m.index], code)
      && forall j :: 0 <= j < m.index ==> !IsApprovedCode(requests[j], code)
    ensures m.VisitorCode? <==>
      && (forall i :: 0 <= i < |requests| ==> !IsApprovedCode(requests[i], code))
      && exists k :: 0 <= k < |visitors| && visitors[k].qrCode == code
    ensures m.VisitorCode? ==>
      && m.visitorId < |visitors| && visitors[m.visitorId].qrCode == code
      && forall j :: 0 <= j < m.visitorId ==> visitors[j].qrCode != code
    ensures m.GroupCode? <==>
      && (forall i :: 0 <= i < |requests| ==> !IsApprovedCode(requests[i], code))
      && (forall k :: 0 <= k < |visitors| ==> visitors[k].qrCode != code)
      && exists i :: 0 <= i < |requests| && IsApprovedMember(requests[i], code)
    ensures m.GroupCode? ==>
      && |m.members| > 0
      && m.members == Filter(requests, (r: Request) => IsApprovedMember(r, code))
  {
    match FindFirst(requests, (r: Request) => IsApprovedCode(r, code))
    case Some(i) => RequestCode(i)
    case None =>
      match FindFirst(visitors, (v: Visitor) => v.qrCode == code)
      case Some(k) => VisitorCode(k)
      case None =>
        var members := Filter(requests, (r: Request) => IsApprovedMember(r, code));
        if |members| > 0 then
          assert members[0] in requests;
          GroupCode(members)
        else NoMatch
  }

  // ----- Finding or creating the visitor behind a request -----

  /** The `Visitor(...)` row the scan handler creates for request `r`. */
  function NewVisitor(r: Request, qrCode: string, groupCode: Option<string>): Visitor
  {
    Visitor(r.name, r.email, r.number, qrCode, groupCode, r.purpose, r.destination, None)
  }

  /** The visitor matching `r` by name and number, created when there is none. */
  function VisitorFor(db: Db, r: Request, qrCode: string, groupCode: Option<string>): (res: (Db, nat))
    ensures res.0 == db.(visitors := res.0.visitors)
    ensures res.1 < |res.0.visitors|
    ensures FindVisitor(res.0.visitors, r.name, r.number) == Some(res.1)
    ensures FindVisitor(db.visitors, r.name, r.number).Some? ==> res.0 == db
    ensures FindVisitor(db.visitors, r.name, r.number).None? ==>
      res.0.visitors == db.visitors + [NewVisitor(r, qrCode, groupCode)]
  {
    match FindVisitor(db.visitors, r.name, r.number)
    case Some(k) => (db, k)
    case None =>
      FindVisitorAppend(db.visitors, NewVisitor(r, qrCode, groupCode), r.name, r.number);
      (db.(visitors := db.visitors + [NewVisitor(r, qrCode, groupCode)]), |db.visitors|)
  }

  method FindOrCreateVisitor(store: Store, r: Request, qrCode: string, groupCode: Option<string>) returns (vid: nat)
    modifies store
    ensures (store.State(), vid) == VisitorFor(old(store.State()), r, qrCode, groupCode)
  {
    var found := FindVisitor(store.visitors, r.name, r.number);
    if found.Some? {
      vid := found.value;
    } else {
      vid := store.AddVisitor(NewVisitor(r, qrCode, groupCode));
    }
  }

  // ----- The group path -----

  /** Phase one of a group scan: the visitor of every member, created where missing. */
  function GroupVisitors(db: Db, members: seq<Request>, code: string): (res: (Db, seq<nat>))
    ensures res.0 == db.(visitors := res.0.visitors)
    ensures |db.visitors| <= |res.0.visitors| && res.0.visitors[..|db.visitors|] == db.visitors
    ensures |res.1| == |members|
    ensures forall k :: 0 <= k < |res.1| ==> res.1[k] < |res.0.visitors|
    ensures forall k :: 0 <= k < |members| ==>
      res.0.visitors[res.1[k]].name == members[k].name && res.0.visitors[res.1[k]].number == members[k].number
  {
    if |members| == 0 then (db, [])
    else
      var (d, ids) := GroupVisitors(db, members[..|members| - 1], code);
      var m := members[|members| - 1];
      var (d', vid) := VisitorFor(d, m, m.uniqueCode, Some(code));
      assert d'.visitors[..|d.visitors|] == d.visitors;
      (d', ids + [vid])
  }

  /** `any_checked_in`: some member's newest log entry is a check-in. */
  predicate AnyCheckedIn(logs: seq<VisitorLog>, ids: seq<nat>)
  {
    exists k :: 0 <= k < |ids| && LatestIsIn(logs, ByVisitor(ids[k]))
  }

  function MemberCodes(members: seq<Request>): (codes: seq<string>)
    ensures |codes| == |members|
    ensures forall k :: 0 <= k < |members| ==> codes[k] == members[k].uniqueCode
  {
    seq(|members|, k requires 0 <= k < |members| => members[k].uniqueCode)
  }

  predicate IdsIn(ids: seq<nat>, n: nat)
  {
    forall k :: 0 <= k < |ids| ==> ids[k] < n
  }

  /** Phase two: `_process_single_visitor` for every member in turn. */
  function ToggleAll(db: Db, ids: seq<nat>, codes: seq<string>, approvedBy: Option<UserId>, actor: Actor, today: Day): (d: Db)
    requires |ids| == |codes| && IdsIn(ids, |db.visitors|)
    ensures d.requests == db.requests && d.visitors == db.visitors
    ensures |d.logs| == |db.logs| + |ids| && d.logs[..|db.logs|] == db.logs
  {
    if |ids| == 0 then db
    else
      var n := |ids| - 1;
      var d0 := ToggleAll(db, ids[..n], codes[..n], approvedBy, actor, today);
      var d1 := Toggle(d0, ids[n], codes[n], approvedBy, actor, today).0;
      assert d1.logs[..|db.logs|] == d0.logs[..|db.logs|];
      d1
  }

  /** The k-th entry a group toggle appends belongs to the k-th member, under the k-th code. */
  lemma {:induction false} ToggleAllEntry(db: Db, ids: seq<nat>, codes: seq<string>, approvedBy: Option<UserId>,
                                          actor: Actor, today: Day, k: nat)
    requires |ids| == |codes| && IdsIn(ids, |db.visitors|) && k < |ids|
    ensures var e := ToggleAll(db, ids, codes, approvedBy, actor, today).logs[|db.logs| + k];
      e.visitorId == ids[k] && e.uniqueCode == codes[k] && e.name == db.visitors[ids[k]].name
  {
    var n := |ids| - 1;
    var d0 := ToggleAll(db, ids[..n], codes[..n], approvedBy, actor, today);
    var d1 := ToggleAll(db, ids, codes, approvedBy, actor, today);
    assert d1 == Toggle(d0, ids[n], codes[n], approvedBy, actor, today).0;
    if k < n {
      ToggleAllEntry(db, ids[..n], codes[..n], approvedBy, actor, today, k);
      assert d1.logs[..|d0.logs|] == d0.logs;
      assert d1.logs[|db.logs| + k] == d0.logs[|db.logs| + k];
    } else {
      assert |db.logs| + k == |d0.logs|;
    }
  }

  /** One report line of the group path, `"<name>: <outcome>"`. */
  function ReportLine(name: string, outcome: string): string
  {
    name + ": " + outcome
  }

  /** The report lines, one per member. */
  function Details(visitors: seq<Visitor>, ids: seq<nat>, outcome: string): (lines: seq<string>)
    requires IdsIn(ids, |visitors|)
    ensures |lines| == |ids|
    ensures forall k :: 0 <= k < |ids| ==> lines[k] == ReportLine(visitors[ids[k]].name, outcome)
  {
    if |ids| == 0 then []
    else Details(visitors, ids[..|ids| - 1], outcome) + [ReportLine(visitors[ids[|ids| - 1]].name, outcome)]
  }

  /** The approver recorded by a group scan: none for the check-out branch, the first
      member's for the check-in branch. */
  function GroupApprover(anyIn: bool, members: seq<Request>): Option<UserId>
    requires |members| > 0
  {
    if anyIn then None else members[0].approvedBy
  }

  function GroupOutcome(anyIn: bool): string
  {
    if anyIn then "Checked-Out" else "Checked-In"
  }

  /** The whole group path of `scan_checkin`. */
  function GroupScan(db: Db, members: seq<Request>, code: string, actor: Actor, today: Day): (r: (Db, ScanResponse))
    requires |members| > 0
  {
    var gv := GroupVisitors(db, members, code);
    var anyIn := AnyCheckedIn(gv.0.logs, gv.1);
    (ToggleAll(gv.0, gv.1, MemberCodes(members), GroupApprover(anyIn, members), actor, today),
     GroupProcessed("Group " + code + " processed", Details(gv.0.visitors, gv.1, GroupOutcome(anyIn))))
  }

  // ----- `scan_checkin` -----

  /** The message `"<name> <action>."` of a single-visitor scan. */
  function ActionMessage(name: string, action: LogStatus): string
  {
    name + " " + StatusText(action) + "."
  }

  /** The store and reply once a non-empty code has been read: the request path, the
      returning-visitor path, the group path, or 404. */
  function ScanCode(db: Db, code: string, actor: Actor, today: Day): (r: (Db, ScanResponse))
    ensures r.0.requests == db.requests
    ensures r.1.Processed? || r.1.GroupProcessed? || r.1.NotRecognized?
    ensures r.1.NotRecognized? ==> r.0 == db
    ensures r.1.NotRecognized? <==> Resolve(db.requests, db.visitors, code).NoMatch?
    ensures r.1.GroupProcessed? <==> Resolve(db.requests, db.visitors, code).GroupCode?
    ensures Resolve(db.requests, db.visitors, code).GroupCode? ==>
      r == GroupScan(db, Resolve(db.requests, db.visitors, code).members, code, actor, today)
  {
    match Resolve(db.requests, db.visitors, code)
    case RequestCode(i) =>
      var req := db.requests[i];
      var (d1, vid) := VisitorFor(db, req, code, None);
      var (d2, action) := Toggle(d1, vid, code, req.approvedBy, actor, today);
      (d2, Processed(ActionMessage(d1.visitors[vid].name, action)))
    case VisitorCode(k) =>
      var (d1, action) := Toggle(db, k, code, None, actor, today);
      (d1, Processed(ActionMessage(db.visitors[k].name, action)))
    case GroupCode(members) =>
      GroupScan(db, members, code, actor, today)
    case NoMatch => (db, NotRecognized)
  }

  /** The store and reply after `scan_checkin`; `payload` is the decoded JSON object
      (None when the body is not JSON) and `actor` the logged-in user, if any. */
  function ScanCheckinSpec(db: Db, payload: Option<map<string, string>>, actor: Option<Actor>, today: Day): (r: (Db, ScanResponse))
    ensures r.0.requests == db.requests
    ensures (r.1.AuthRequired? || r.1.BadRequest? || r.1.NotRecognized?) ==> r.0 == db
    ensures r.1.AuthRequired? <==> actor.None?
    ensures actor.Some? ==>
      (r.1.BadRequest? <==> payload.None? || |payload.value| == 0 || Strip(JsonGet(payload.value, "qr_data")) == "")
    ensures actor.Some? && !r.1.BadRequest? ==>
      r == ScanCode(db, Strip(JsonGet(payload.value, "qr_data")), actor.value, today)
  {
    if actor.None? then (db, AuthRequired)
    else if payload.None? || |payload.value| == 0 then (db, BadRequest("Invalid or missing JSON data."))
    else
      var code := Strip(JsonGet(payload.value, "qr_data"));
      if code == "" then (db, BadRequest("Invalid or missing QR code data."))
      else ScanCode(db, code, actor.value, today)
  }

  /** The request path: an Approve-status request with the scanned code toggles the visitor
      with the request's name and number (created when missing), appending exactly one
      entry with that code; a check-in records the request's approver. */
  lemma ScanRequestCode(db: Db, code: string, actor: Actor, today: Day)
    requires Resolve(db.requests, db.visitors, code).RequestCode?
    ensures var req := db.requests[Resolve(db.requests, db.visitors, code).index];
      var r := ScanCode(db, code, actor, today);
      && r.1.Processed?
      && |r.0.logs| == |db.logs| + 1 && r.0.logs[..|db.logs|] == db.logs
      && var e := r.0.logs[|db.logs|];
      && e.uniqueCode == code && e.visitorId < |r.0.visitors|
      && FindVisitor(r.0.visitors, req.name, req.number) == Some(e.visitorId)
      && (e.status == CheckedIn ==> e.approvedBy == req.approvedBy)
  {
  }

  /** The returning-visitor path: a visitor whose permanent QR code was scanned is toggled,
      appending exactly one entry with that code; a check-in records no approver. */
  lemma ScanVisitorCode(db: Db, code: string, actor: Actor, today: Day)
    requires Resolve(db.requests, db.visitors, code).VisitorCode?
    ensures var k := Resolve(db.requests, db.visitors, code).visitorId;
      var r := ScanCode(db, code, actor, today);
      && r.1.Processed? && r.0.visitors == db.visitors
      && |r.0.logs| == |db.logs| + 1 && r.0.logs[..|db.logs|] == db.logs
      && var e := r.0.logs[|db.logs|];
      && e.uniqueCode == code && e.visitorId == k && db.visitors[k].qrCode == code
      && (e.status == CheckedIn ==> e.approvedBy == None)
  {
  }

  /** `scan_checkin`, step by step against the store. */
  method ScanCheckin(store: Store, payload: Option<map<string, string>>, actor: Option<Actor>, today: Day)
    returns (resp: ScanResponse)
    requires store.Valid()
    modifies store
    ensures store.Valid()
    ensures (store.State(), resp) == ScanCheckinSpec(old(store.State()), payload, actor, today)
  {
    ghost var db0 := store.State();
    if actor.None? {
      return AuthRequired;
    }
    if payload.None? || |payload.value| == 0 {
      return BadRequest("Invalid or missing JSON data.");
    }
    var code := Strip(JsonGet(payload.value, "qr_data"));
    if code == "" {
      return BadRequest("Invalid or missing QR code data.");
    }
    resp := ProcessCode(store, code, actor.value, today);
    ScanKeepsValid(db0, payload, actor, today);
  }

  /** The part of `scan_checkin` after the code has been read. */
  method ProcessCode(store: Store, code: string, actor: Actor, today: Day) returns (resp: ScanResponse)
    modifies store
    ensures (store.State(), resp) == ScanCode(old(store.State()), code, actor, today)
  {
    match Resolve(store.requests, store.visitors, code)
    case RequestCode(i) =>
      var req := store.requests[i];
      var vid := FindOrCreateVisitor(store, req, code, None);
      var name := store.visitors[vid].name;
      var action := ProcessSingleVisitor(store, vid, code, req.approvedBy, actor, today);
      resp := Processed(ActionMessage(name, action));
    case VisitorCode(k) =>
      var name := store.visitors[k].name;
      var action := ProcessSingleVisitor(store, k, code, None, actor, today);
      resp := Processed(ActionMessage(name, action));
    case GroupCode(members) =>
      var ids, anyIn := GroupMemberVisitors(store, members, code);
      var lines;
      if anyIn {
        lines := ToggleMembers(store, ids, MemberCodes(members), None, actor, today, "Checked-Out");
      } else {
        lines := ToggleMembers(store, ids, MemberCodes(members), members[0].approvedBy, actor, today, "Checked-In");
      }
      resp := GroupProcessed("Group " + code + " processed", lines);
    case NoMatch =>
      resp := NotRecognized;
  }

  /** Phase one of the group path: finds or creates every member's visitor and notes
      whether any of them is currently checked in. */
  method GroupMemberVisitors(store: Store, members: seq<Request>, code: string) returns (ids: seq<nat>, anyIn: bool)
    modifies store
    ensures (store.State(), ids) == GroupVisitors(old(store.State()), members, code)
    ensures anyIn == AnyCheckedIn(store.logs, ids)
  {
    ghost var db0 := store.State();
    ids, anyIn := [], false;
    var i := 0;
    while i < |members|
      invariant 0 <= i <= |members|
      invariant (store.State(), ids) == GroupVisitors(db0, members[..i], code)
      invariant anyIn == AnyCheckedIn(store.logs, ids)
    {
      GroupVisitorsStep(db0, members, code, i);
      var m := members[i];
      var vid := FindOrCreateVisitor(store, m, m.uniqueCode, Some(code));
      AnyCheckedInStep(store.logs, ids, vid);
      ids := ids + [vid];
      anyIn := anyIn || LatestIsIn(store.logs, ByVisitor(vid));
      i := i + 1;
    }
    assert members[..i] == members;
  }

  /** Phase two of the group path: toggles every member's visitor in turn and collects the
      report lines, all with the same `outcome`. */
  method ToggleMembers(store: Store, ids: seq<nat>, codes: seq<string>, approvedBy: Option<UserId>,
                       actor: Actor, today: Day, outcome: string) returns (lines: seq<string>)
    requires |ids| == |codes| && IdsIn(ids, |store.visitors|)
    modifies store
    ensures store.State() == ToggleAll(old(store.State()), ids, codes, approvedBy, actor, today)
    ensures lines == Details(old(store.visitors), ids, outcome)
  {
    ghost var db0 := store.State();
    lines := [];
    var i := 0;
    while i < |ids|
      invariant 0 <= i <= |ids|
      invariant store.State() == ToggleAll(db0, ids[..i], codes[..i], approvedBy, actor, today)
      invariant lines == Details(db0.visitors, ids[..i], outcome)
    {
      ToggleAllStep(db0, ids, codes, approvedBy, actor, today, outcome, i);
      var name := store.visitors[ids[i]].name;
      var _ := ProcessSingleVisitor(store, ids[i], codes[i], approvedBy, actor, today);
      lines := lines + [ReportLine(name, outcome)];
      i := i + 1;
    }
    assert ids[..i] == ids;
    assert codes[..i] == codes;
  }

  lemma GroupVisitorsStep(db: Db, members: seq<Request>, code: string, i: nat)
    requires i < |members|
    ensures var gv := GroupVisitors(db, members[..i], code);
      var m := members[i];
      var step := VisitorFor(gv.0, m, m.uniqueCode, Some(code));
      GroupVisitors(db, members[..i + 1], code) == (step.0, gv.1 + [step.1])
  {
    assert members[..i + 1][..i] == members[..i];
  }

  lemma AnyCheckedInStep(logs: seq<VisitorLog>, ids: seq<nat>, vid: nat)
    ensures AnyCheckedIn(logs, ids + [vid]) == (AnyCheckedIn(logs, ids) || LatestIsIn(logs, ByVisitor(vid)))
  {
    var ids' := ids + [vid];
    if AnyCheckedIn(logs, ids) {
      var k :| 0 <= k < |ids| && LatestIsIn(logs, ByVisitor(ids[k]));
      assert ids'[k] == ids[k];
    }
    if LatestIsIn(logs, ByVisitor(vid)) {
      assert ids'[|ids|] == vid;
    }
  }

  lemma ToggleAllStep(db: Db, ids: seq<nat>, codes: seq<string>, approvedBy: Option<UserId>, actor: Actor, today: Day,
                      outcome: string, i: nat)
    requires |ids| == |codes| && IdsIn(ids, |db.visitors|) && i < |ids|
    ensures var d := ToggleAll(db, ids[..i], codes[..i], approvedBy, actor, today);
      && ToggleAll(db, ids[..i + 1], codes[..i + 1], approvedBy, actor, today) == Toggle(d, ids[i], codes[i], approvedBy, actor, today).0
      && Details(db.visitors, ids[..i + 1], outcome) == Details(db.visitors, ids[..i], outcome) + [ReportLine(db.visitors[ids[i]].name, outcome)]
  {
    assert ids[..i + 1][..i] == ids[..i];
    assert codes[..i + 1][..i] == codes[..i];
  }

  // ----- Properties of the scan endpoint -----

  /** Every group toggle keeps the ledger invariant. */
  lemma {:induction false} ToggleAllKeeps(db: Db, ids: seq<nat>, codes: seq<string>, approvedBy: Option<UserId>, actor: Actor, today: Day)
    requires |ids| == |codes| && IdsIn(ids, |db.visitors|)
    requires SessionsWellFormed(db.logs, db.nextSession)
    ensures var d := ToggleAll(db, ids, codes, approvedBy, actor, today);
      SessionsWellFormed(d.logs, d.nextSession)
  {
    if |ids| > 0 {
      var n := |ids| - 1;
      ToggleAllKeeps(db, ids[..n], codes[..n], approvedBy, actor, today);
      var d0 := ToggleAll(db, ids[..n], codes[..n], approvedBy, actor, today);
      ToggleKeepsSessions(d0, ids[n], codes[n], approvedBy, actor, today);
    }
  }

  /** Processing a code keeps the ledger invariant. */
  lemma ScanCodeKeeps(db: Db, code: string, actor: Actor, today: Day)
    requires SessionsWellFormed(db.logs, db.nextSession)
    ensures var r := ScanCode(db, code, actor, today);
      SessionsWellFormed(r.0.logs, r.0.nextSession)
  {
    match Resolve(db.requests, db.visitors, code)
    case RequestCode(i) =>
      var req := db.requests[i];
      var (d1, vid) := VisitorFor(db, req, code, None);
      ToggleKeepsSessions(d1, vid, code, req.approvedBy, actor, today);
    case VisitorCode(k) =>
      ToggleKeepsSessions(db, k, code, None, actor, today);
    case GroupCode(members) =>
      var gv := GroupVisitors(db, members, code);
      ToggleAllKeeps(gv.0, gv.1, MemberCodes(members), GroupApprover(AnyCheckedIn(gv.0.logs, gv.1), members), actor, today);
    case NoMatch =>
  }

  /** Scanning keeps the store's invariant. */
  lemma ScanKeepsValid(db: Db, payload: Option<map<string, string>>, actor: Option<Actor>, today: Day)
    requires DbValid(db)
    ensures DbValid(ScanCheckinSpec(db, payload, actor, today).0)
  {
    if actor.Some? && payload.Some? && |payload.value| > 0 {
      var code := Strip(JsonGet(payload.value, "qr_data"));
      if code != "" {
        ScanCodeKeeps(db, code, actor.value, today);
      }
    }
  }

  /** Scanning the same single-visitor code twice appends two entries for one visitor with
      opposite statuses; after a check-in the check-out closes the same session. */
  lemma ScanTwiceAlternates(db: Db, code: string, actor1: Actor, actor2: Actor, today1: Day, today2: Day)
    requires ScanCode(db, code, actor1, today1).1.Processed?
    ensures var r1 := ScanCode(db, code, actor1, today1);
      var r2 := ScanCode(r1.0, code, actor2, today2);
      var n := |db.logs|;
      && r2.1.Processed?
      && |r1.0.logs| == n + 1 && |r2.0.logs| == n + 2
      && r2.0.logs[n + 1].visitorId == r1.0.logs[n].visitorId
      && r2.0.logs[n + 1].status != r1.0.logs[n].status
      && (r1.0.logs[n].status == CheckedIn ==> r2.0.logs[n + 1].sessionId == r1.0.logs[n].sessionId)
  {
    match Resolve(db.requests, db.visitors, code)
    case RequestCode(i) =>
      var req := db.requests[i];
      var (d1, vid) := VisitorFor(db, req, code, None);
      var t1 := Toggle(d1, vid, code, req.approvedBy, actor1, today1);
      assert Resolve(t1.0.requests, t1.0.visitors, code) == RequestCode(i);
      assert VisitorFor(t1.0, req, code, None) == (t1.0, vid);
      ToggleTwice(d1, vid, code, code, req.approvedBy, req.approvedBy, actor1, actor2, today1, today2);
    case VisitorCode(k) =>
      var t1 := Toggle(db, k, code, None, actor1, today1);
      assert Resolve(t1.0.requests, t1.0.visitors, code) == VisitorCode(k);
      ToggleTwice(db, k, code, code, None, None, actor1, actor2, today1, today2);
  }

  /** A visitor checked in by an entry inside a prefix was already checked in at the end of
      that prefix. */
  lemma LatestInPrefix(base: seq<VisitorLog>, logs: seq<VisitorLog>, key: LogKey)
    requires |base| <= |logs| && logs[..|base|] == base
    ensures LatestIsIn(logs, key) && Latest(logs, key).value < |base| ==> LatestIsIn(base, key)
  {
    var i := Latest(logs, key);
    var j := Latest(base, key);
    if i.Some? && i.value < |base| {
      assert base[i.value] == logs[i.value];
      if j.Some? {
        assert base[j.value] == logs[j.value];
      }
    }
  }

  /** Entries for other visitors leave a visitor's newest entry where it was. */
  lemma {:induction false} ToggleAllOthers(db: Db, ids: seq<nat>, codes: seq<string>, approvedBy: Option<UserId>,
                                           actor: Actor, today: Day, v: nat)
    requires |ids| == |codes| && IdsIn(ids, |db.visitors|)
    requires forall j :: 0 <= j < |ids| ==> ids[j] != v
    ensures Latest(ToggleAll(db, ids, codes, approvedBy, actor, today).logs, ByVisitor(v)) == Latest(db.logs, ByVisitor(v))
  {
    if |ids| > 0 {
      var n := |ids| - 1;
      ToggleAllOthers(db, ids[..n], codes[..n], approvedBy, actor, today, v);
      var d0 := ToggleAll(db, ids[..n], codes[..n], approvedBy, actor, today);
      var d1 := Toggle(d0, ids[n], codes[n], approvedBy, actor, today).0;
      assert d1.logs == d0.logs + [d1.logs[|d0.logs|]];
      LatestAppend(d0.logs, d1.logs[|d0.logs|], ByVisitor(v));
    }
  }

  /** In a group toggle, a member whose visitor appears for the first time is checked out
      exactly when that visitor was checked in before the scan, and checked in otherwise. */
  lemma {:induction false} ToggleAllStatus(db: Db, ids: seq<nat>, codes: seq<string>, approvedBy: Option<UserId>,
                                           actor: Actor, today: Day, k: nat)
    requires |ids| == |codes| && IdsIn(ids, |db.visitors|)
    requires k < |ids| && forall j :: 0 <= j < k ==> ids[j] != ids[k]
    ensures ToggleAll(db, ids, codes, approvedBy, actor, today).logs[|db.logs| + k].status ==
            if LatestIsIn(db.logs, ByVisitor(ids[k])) then CheckedOut else CheckedIn
  {
    var n := |ids| - 1;
    if k == n {
      ToggleAllOthers(db, ids[..n], codes[..n], approvedBy, actor, today, ids[k]);
    } else {
      ToggleAllStatus(db, ids[..n], codes[..n], approvedBy, actor, today, k);
    }
  }

  /** Every entry from position `from` on records approver `a`. */
  predicate AllApprovedBy(logs: seq<VisitorLog>, from: nat, a: Option<UserId>)
  {
    forall j :: from <= j < |logs| ==> logs[j].approvedBy == a
  }

  /** When no member was checked in, every entry a group toggle appends carries the same
      approver: a check-out can only close a session this very toggle opened. */
  lemma {:induction false} ToggleAllApprover(db: Db, ids: seq<nat>, codes: seq<string>, approvedBy: Option<UserId>,
                                             actor: Actor, today: Day)
    requires |ids| == |codes| && IdsIn(ids, |db.visitors|)
    requires forall k :: 0 <= k < |ids| ==> !LatestIsIn(db.logs, ByVisitor(ids[k]))
    ensures AllApprovedBy(ToggleAll(db, ids, codes, approvedBy, actor, today).logs, |db.logs|, approvedBy)
  {
    if |ids| > 0 {
      var n := |ids| - 1;
      ToggleAllApprover(db, ids[..n], codes[..n], approvedBy, actor, today);
      var d0 := ToggleAll(db, ids[..n], codes[..n], approvedBy, actor, today);
      var vid := ids[n];
      var t := Toggle(d0, vid, codes[n], approvedBy, actor, today);
      var d := ToggleAll(db, ids, codes, approvedBy, actor, today);
      assert d == t.0;
      if t.1 == CheckedOut {
        // The session being closed was opened by this toggle, after the old entries.
        var li := Latest(d0.logs, ByVisitor(vid)).value;
        LatestInPrefix(db.logs, d0.logs, ByVisitor(vid));
        assert !LatestIsIn(db.logs, ByVisitor(ids[n]));
        assert |db.logs| <= li < |d0.logs|;
      }
      assert d.logs[|d0.logs|].approvedBy == approvedBy;
      forall j | |db.logs| <= j < |d.logs| ensures d.logs[j].approvedBy == approvedBy {
        if j < |d0.logs| {
          assert d.logs[j] == d0.logs[j];
        }
      }
    }
  }

  /** The group path appends exactly one entry per Approve-status member, in order and under
      that member's code; every report line carries the same outcome, "Checked-Out" when any
      member was checked in and "Checked-In" otherwise; and a group check-in records the first
      member's approver on every entry. */
  lemma GroupScanEffect(db: Db, members: seq<Request>, code: string, actor: Actor, today: Day)
    requires |members| > 0
    ensures var gv := GroupVisitors(db, members, code);
      var r := GroupScan(db, members, code, actor, today);
      var anyIn := AnyCheckedIn(db.logs, gv.1);
      && r.0.requests == db.requests
      && |r.0.logs| == |db.logs| + |members| && r.0.logs[..|db.logs|] == db.logs
      && (forall k :: 0 <= k < |members| ==>
            && r.0.logs[|db.logs| + k].uniqueCode == members[k].uniqueCode
            && r.0.logs[|db.logs| + k].name == members[k].name)
      && |r.1.details| == |members|
      && (forall k :: 0 <= k < |members| ==> r.1.details[k] == ReportLine(members[k].name, GroupOutcome(anyIn)))
      && (!anyIn ==> AllApprovedBy(r.0.logs, |db.logs|, members[0].approvedBy))
  {
    var gv := GroupVisitors(db, members, code);
    var anyIn := AnyCheckedIn(db.logs, gv.1);
    var codes := MemberCodes(members);
    var d2 := ToggleAll(gv.0, gv.1, codes, GroupApprover(anyIn, members), actor, today);
    var lines := Details(gv.0.visitors, gv.1, GroupOutcome(anyIn));
    assert GroupScan(db, members, code, actor, today) == (d2, GroupProcessed("Group " + code + " processed", lines));
    forall k | 0 <= k < |members|
      ensures d2.logs[|db.logs| + k].uniqueCode == members[k].uniqueCode
      ensures d2.logs[|db.logs| + k].name == members[k].name
    {
      ToggleAllEntry(gv.0, gv.1, codes, GroupApprover(anyIn, members), actor, today, k);
    }
    if !anyIn {
      ToggleAllApprover(gv.0, gv.1, codes, members[0].approvedBy, actor, today);
    }
  }

  /** As written, a group check-out also checks IN every member who was not checked in,
      while that member's report line reads "Checked-Out". */
  lemma GroupCheckOutChecksInOthers(db: Db, members: seq<Request>, code: string, actor: Actor, today: Day, k: nat)
    requires |members| > 0
    requires var ids := GroupVisitors(db, members, code).1;
      && AnyCheckedIn(db.logs, ids)
      && k < |ids| && (forall j :: 0 <= j < k ==> ids[j] != ids[k])
      && !LatestIsIn(db.logs, ByVisitor(ids[k]))
    ensures var r := GroupScan(db, members, code, actor, today);
      && r.0.logs[|db.logs| + k].status == CheckedIn
      && r.1.details[k] == ReportLine(members[k].name, "Checked-Out")
  {
    var gv := GroupVisitors(db, members, code);
    var codes := MemberCodes(members);
    assert gv.0.logs == db.logs;
    var anyIn := AnyCheckedIn(gv.0.logs, gv.1);
    assert anyIn;
    var r := GroupScan(db, members, code, actor, today);
    assert r.0 == ToggleAll(gv.0, gv.1, codes, None, actor, today);
    assert r.1.details == Details(gv.0.visitors, gv.1, "Checked-Out");
    ToggleAllStatus(gv.0, gv.1, codes, None, actor, today, k);
  }

  /** A group check-in checks in every member whose visitor appears for the first time. */
  lemma GroupCheckInChecksInAll(db: Db, members: seq<Request>, code: string, actor: Actor, today: Day, k: nat)
    requires |members| > 0
    requires var ids := GroupVisitors(db, members, code).1;
      && !AnyCheckedIn(db.logs, ids)
      && k < |ids| && (forall j :: 0 <= j < k ==> ids[j] != ids[k])
    ensures var r := GroupScan(db, members, code, actor, today);
      && r.0.logs[|db.logs| + k].status == CheckedIn
      && r.1.details[k] == ReportLine(members[k].name, "Checked-In")
  {
    var gv := GroupVisitors(db, members, code);
    var codes := MemberCodes(members);
    assert gv.0.logs == db.logs;
    var anyIn := AnyCheckedIn(gv.0.logs, gv.1);
    assert !anyIn;
    var r := GroupScan(db, members, code, actor, today);
    assert r.0 == ToggleAll(gv.0, gv.1, codes, members[0].approvedBy, actor, today);
    assert r.1.details == Details(gv.0.visitors, gv.1, "Checked-In");
    ToggleAllStatus(gv.0, gv.1, codes, members[0].approvedBy, actor, today, k);
  }
}
