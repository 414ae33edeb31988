/** The registration and staff check-in handlers: public registration
    (`submit_request`), multi-visitor registration (`multi_form_entry`),
    spreadsheet upload (`upload_csv`), staff check-in of one request
    (`direct_checkin`) or of a whole group (`direct_checkin_group`), and the
    grouping of the request list (`request_page`). */
module Requests {
  import opened Seqs
  import opened Text
  import opened Records
  import opened Database

  // ----- Name composition -----

  /** The upper-cased first character of the (stripped) middle-initial input, or "" when there is none. */
  function MiddleInitial(raw: string): (m: string)
    ensures |m| <= 1
    ensures m == "" <==> raw == ""
  {
    if raw == "" then "" else [UpperChar(raw[0])]
  }

  /** The registered name: "First M. Last", or "First Last" without a middle initial. */
  function FullName(first: string, middleRaw: string, last: string): (name: string)
    ensures |first| < |name| && name[..|first|] == first && name[|first|] == ' '
    ensures |last| <= |name| && name[|name| - |last|..] == last
    ensures middleRaw == "" ==> |name| == |first| + 1 + |last|
    ensures middleRaw != "" ==>
      && |name| == |first| + 4 + |last|
      && name[|first| + 1] == UpperChar(middleRaw[0])
      && name[|first| + 2] == '.' && name[|first| + 3] == ' '
  {
    var m := MiddleInitial(middleRaw);
    var name := first + " " + (if m != "" then m + ". " else "") + last;
    assert name[|name| - |last|..] == last;
    name
  }

  // ----- submit_request -----

  /** The fields `submit_request` reads, each as `request.form.get(name, "")` returns it
      ("" when the field was not sent); `noEmail` is the `no_email` checkbox, set when non-empty. */
  datatype RegistrationForm = RegistrationForm(
    firstName: string, middleInitial: string, lastName: string, noEmail: string, email: string,
    cellNumber: string, purpose: string, otherPurpose: string, destination: string, address: string)

  datatype SubmitOutcome =
    | EmailRequired
    | MissingFields
    | Registered(code: string, name: string, email: string)

  function SubmitEmail(f: RegistrationForm): string
  {
    if f.noEmail != "" then "" else Strip(f.email)
  }

  /** The purpose, with "Other" replaced by `other_purpose` (even when that is empty). */
  function SubmitPurpose(f: RegistrationForm): (p: string)
    ensures Strip(f.purpose) != "Other" ==> p == Strip(f.purpose)
    ensures Strip(f.purpose) == "Other" ==> p == Strip(f.otherPurpose)
  {
    var p := Strip(f.purpose);
    if p == "Other" then Strip(f.otherPurpose) else p
  }

  /** All six required fields are non-empty. */
  predicate SubmitComplete(f: RegistrationForm)
  {
    && Strip(f.firstName) != "" && Strip(f.lastName) != "" && Strip(f.cellNumber) != ""
    && SubmitPurpose(f) != "" && Strip(f.destination) != "" && Strip(f.address) != ""
  }

  /** The request `submit_request` stores; its id is the next row id. */
  function SubmittedRequest(f: RegistrationForm, id: nat, code: string): Request
  {
    Request(id, FullName(Strip(f.firstName), Strip(f.middleInitial), Strip(f.lastName)),
            SubmitEmail(f), Strip(f.cellNumber), SubmitPurpose(f), Strip(f.destination),
            Strip(f.address), code, Approve, None, None)
  }

  /** `submit_request`; `code` is the value `generate_unique_secure_code` returns. */
  function SubmitRequestSpec(db: Db, f: RegistrationForm, code: string): (r: (Db, SubmitOutcome))
    ensures r.1.EmailRequired? <==> f.noEmail == "" && Strip(f.email) == ""
    ensures r.1.MissingFields? <==> !r.1.EmailRequired? && !SubmitComplete(f)
    ensures !r.1.Registered? ==> r.0 == db
    ensures r.1.Registered? ==>
      && r.0 == db.(requests := db.requests + [SubmittedRequest(f, |db.requests| + 1, code)])
      && r.1 == Registered(code, SubmittedRequest(f, |db.requests| + 1, code).name, SubmitEmail(f))
  {
    if f.noEmail == "" && Strip(f.email) == "" then (db, EmailRequired)
    else if !SubmitComplete(f) then (db, MissingFields)
    else
      var q := SubmittedRequest(f, |db.requests| + 1, code);
      (db.(requests := db.requests + [q]), Registered(code, q.name, q.email))
  }

  /** A registered request is approved at once, belongs to no group, has every required
      field filled in, keeps "Other" as purpose only when `other_purpose` itself says so,
      and has an email exactly when the box is unticked. */
  lemma SubmittedRequestShape(db: Db, f: RegistrationForm, code: string)
    requires SubmitRequestSpec(db, f, code).1.Registered?
    ensures var q := SubmitRequestSpec(db, f, code).0.requests[|db.requests|];
      && q.status == Approve && q.groupCode == None && q.approvedBy == None && q.uniqueCode == code
      && q.number != "" && q.purpose != "" && q.destination != "" && q.address != ""
      && |q.name| >= 3
      && (q.purpose == "Other" ==> Strip(f.otherPurpose) == "Other")
      && (q.email == "" <==> f.noEmail != "")
  {
    var q := SubmittedRequest(f, |db.requests| + 1, code);
    assert SubmitRequestSpec(db, f, code).0.requests[|db.requests|] == q;
  }

  /** Registering with a fresh code keeps the store's invariant. */
  lemma SubmitKeepsValid(db: Db, f: RegistrationForm, code: string)
    requires DbValid(db) && code !in Codes(db.requests)
    ensures DbValid(SubmitRequestSpec(db, f, code).0)
  {
    AppendFreshCodes(db.requests, [SubmittedRequest(f, |db.requests| + 1, code)]);
  }

  method SubmitRequest(store: Store, f: RegistrationForm, code: string) returns (outcome: SubmitOutcome)
    requires store.Valid() && code !in Codes(store.requests)
    modifies store
    ensures store.Valid()
    ensures (store.State(), outcome) == SubmitRequestSpec(old(store.State()), f, code)
  {
    SubmitKeepsValid(store.State(), f, code);
    var first := Strip(f.firstName);
    var middleRaw := Strip(f.middleInitial);
    var last := Strip(f.lastName);
    var fullName := FullName(first, middleRaw, last);
    var email := if f.noEmail != "" then "" else Strip(f.email);
    if f.noEmail == "" && email == "" {
      return EmailRequired;
    }
    var number := Strip(f.cellNumber);
    var purpose := Strip(f.purpose);
    if purpose == "Other" {
      purpose := Strip(f.otherPurpose);
    }
    var destination := Strip(f.destination);
    var address := Strip(f.address);
    if first == "" || last == "" || number == "" || purpose == "" || destination == "" || address == "" {
      return MissingFields;
    }
    var q := Request(|store.requests| + 1, fullName, email, number, purpose, destination, address,
                     code, Approve, None, None);
    store.AddRequest(q);
    outcome := Registered(code, q.name, q.email);
  }

  // ----- direct_checkin -----

  datatype CheckinOutcome =
    | RequestNotFound                  // 404 from `get_or_404`
    | AlreadyCheckedIn(name: string)   // warning, nothing recorded
    | CheckedInNow(name: string)

  /** `Request.query.get(id)`: the position of the request with that id. */
  function FindRequest(requests: seq<Request>, id: nat): (r: Option<nat>)
    ensures r.Some? ==> r.value < |requests| && requests[r.value].id == id
    ensures r.None? <==> forall i :: 0 <= i < |requests| ==> requests[i].id != id
  {
    FindFirst(requests, (q: Request) => q.id == id)
  }

  /** The newest entry for `code` is a check-in made on day `today`. */
  predicate CheckedInToday(logs: seq<VisitorLog>, code: string, today: Day)
  {
    var k := Latest(logs, ByCode(code));
    k.Some? && logs[k.value].status == CheckedIn && logs[k.value].day == today
  }

  /** Appending a same-day check-in never undoes "checked in today" for any code, and makes
      its own code checked in today. */
  lemma CheckedInTodayAppend(logs: seq<VisitorLog>, e: VisitorLog, code: string, today: Day)
    requires e.status == CheckedIn && e.day == today
    ensures CheckedInToday(logs + [e], code, today) <==> CheckedInToday(logs, code, today) || e.uniqueCode == code
  {
    LatestAppend(logs, e, ByCode(code));
    var k := Latest(logs, ByCode(code));
    if k.Some? {
      assert (logs + [e])[k.value] == logs[k.value];
    }
  }

  /** The visitor row `direct_checkin` creates for a first-time visitor. */
  function VisitorFromRequest(req: Request): Visitor
  {
    Visitor(req.name, req.email, req.number, req.uniqueCode, None, req.purpose, req.destination, Some(req.address))
  }

  /** An existing visitor with its last purpose, destination and address taken from `req`. */
  function Refreshed(v: Visitor, req: Request): Visitor
  {
    v.(lastPurpose := req.purpose, lastDestination := req.destination, lastAddress := Some(req.address))
  }

  /** Find-or-create the visitor matching `req` by name and number, then record the
      request's purpose, destination and address on it. */
  function UpsertVisitor(visitors: seq<Visitor>, req: Request): (r: (seq<Visitor>, nat))
    ensures r.1 < |r.0|
    ensures r.0[r.1].name == req.name && r.0[r.1].number == req.number
    ensures r.0[r.1].lastPurpose == req.purpose && r.0[r.1].lastDestination == req.destination
    ensures r.0[r.1].lastAddress == Some(req.address)
    ensures FindVisitor(visitors, req.name, req.number).Some? ==>
      && r.1 == FindVisitor(visitors, req.name, req.number).value
      && r.0 == visitors[r.1 := Refreshed(visitors[r.1], req)]
    ensures FindVisitor(visitors, req.name, req.number).None? ==>
      r.1 == |visitors| && r.0 == visitors + [VisitorFromRequest(req)]
  {
    match FindVisitor(visitors, req.name, req.number)
    case Some(k) => (visitors[k := Refreshed(visitors[k], req)], k)
    case None => (visitors + [VisitorFromRequest(req)], |visitors|)
  }

  /** The check-in entry the staff handlers append for `req` and visitor `vid`. */
  function StaffCheckInEntry(v: Visitor, vid: nat, req: Request, session: SessionId, actor: Actor, today: Day): VisitorLog
  {
    VisitorLog(vid, v.name, v.email, v.number, req.purpose, req.destination, Some(req.address),
               CheckedIn, req.uniqueCode, session, today,
               Some(actor.id), actor.gateRole, None, None, Some(actor.id))
  }

  /** The store after checking `req` in by hand. */
  function CheckInRequest(db: Db, req: Request, actor: Actor, today: Day): (d: Db)
    ensures d.requests == db.requests
    ensures |d.logs| == |db.logs| + 1 && d.logs[..|db.logs|] == db.logs
    ensures d.nextSession == db.nextSession + 1
    ensures var e := d.logs[|db.logs|];
      && e.status == CheckedIn && e.sessionId == db.nextSession && e.day == today
      && e.uniqueCode == req.uniqueCode && e.purpose == req.purpose
      && e.destination == req.destination && e.address == Some(req.address)
      && e.checkInBy == Some(actor.id) && e.approvedBy == Some(actor.id) && e.checkInGate == actor.gateRole
      && e.visitorId < |d.visitors| && d.visitors[e.visitorId].name == req.name
      && d.visitors[e.visitorId].number == req.number
    ensures d.visitors == UpsertVisitor(db.visitors, req).0
  {
    var (visitors, vid) := UpsertVisitor(db.visitors, req);
    var e := StaffCheckInEntry(visitors[vid], vid, req, db.nextSession, actor, today);
    assert (db.logs + [e])[..|db.logs|] == db.logs;
    db.(visitors := visitors, logs := db.logs + [e], nextSession := db.nextSession + 1)
  }

  /** `direct_checkin` for the request with id `requestId`. */
  function DirectCheckinSpec(db: Db, requestId: nat, actor: Actor, today: Day): (r: (Db, CheckinOutcome))
    ensures r.1.RequestNotFound? <==> FindRequest(db.requests, requestId).None?
    ensures r.1.AlreadyCheckedIn? <==>
      FindRequest(db.requests, requestId).Some? &&
      CheckedInToday(db.logs, db.requests[FindRequest(db.requests, requestId).value].uniqueCode, today)
    ensures !r.1.CheckedInNow? ==> r.0 == db
    ensures r.1.CheckedInNow? ==>
      r.0 == CheckInRequest(db, db.requests[FindRequest(db.requests, requestId).value], actor, today)
  {
    match FindRequest(db.requests, requestId)
    case None => (db, RequestNotFound)
    case Some(i) =>
      var req := db.requests[i];
      if CheckedInToday(db.logs, req.uniqueCode, today) then (db, AlreadyCheckedIn(req.name))
      else (CheckInRequest(db, req, actor, today), CheckedInNow(req.name))
  }

  /** A second direct check-in of the same request on the same day records nothing. */
  lemma DirectCheckinTwice(db: Db, requestId: nat, actor1: Actor, actor2: Actor, today: Day)
    requires DirectCheckinSpec(db, requestId, actor1, today).1.CheckedInNow?
    ensures var d := DirectCheckinSpec(db, requestId, actor1, today).0;
      DirectCheckinSpec(d, requestId, actor2, today) == (d, AlreadyCheckedIn(db.requests[FindRequest(db.requests, requestId).value].name))
  {
    var req := db.requests[FindRequest(db.requests, requestId).value];
    var d := CheckInRequest(db, req, actor1, today);
    var e := d.logs[|db.logs|];
    assert d.logs == db.logs + [e];
    CheckedInTodayAppend(db.logs, e, req.uniqueCode, today);
  }

  /** Checking a request in by hand keeps the ledger invariant. */
  lemma CheckInRequestKeeps(db: Db, req: Request, actor: Actor, today: Day)
    requires DbValid(db)
    ensures DbValid(CheckInRequest(db, req, actor, today))
  {
    var d := CheckInRequest(db, req, actor, today);
    var e := d.logs[|db.logs|];
    assert d.logs == db.logs + [e];
    AppendCheckInKeeps(db.logs, db.nextSession, e);
  }

  /** The find-or-create step of the staff handlers, against the store. */
  method UpsertVisitorInStore(store: Store, req: Request) returns (vid: nat)
    modifies store
    ensures (store.visitors, vid) == UpsertVisitor(old(store.visitors), req)
    ensures store.State() == old(store.State()).(visitors := store.visitors)
  {
    var found := FindVisitor(store.visitors, req.name, req.number);
    if found.None? {
      vid := store.AddVisitor(VisitorFromRequest(req));
    } else {
      vid := found.value;
      store.SetVisitor(vid, Refreshed(store.visitors[vid], req));
    }
  }

  /** Appends the staff check-in for `req` to the store. */
  method CheckInRequestInStore(store: Store, req: Request, actor: Actor, today: Day)
    modifies store
    ensures store.State() == CheckInRequest(old(store.State()), req, actor, today)
  {
    var vid := UpsertVisitorInStore(store, req);
    var v := store.visitors[vid];
    var session := store.NewSessionId();
    store.AddLog(StaffCheckInEntry(v, vid, req, session, actor, today));
  }

  method DirectCheckin(store: Store, requestId: nat, actor: Actor, today: Day) returns (outcome: CheckinOutcome)
    requires store.Valid()
    modifies store
    ensures store.Valid()
    ensures (store.State(), outcome) == DirectCheckinSpec(old(store.State()), requestId, actor, today)
  {
    var found := FindRequest(store.requests, requestId);
    if found.None? {
      return RequestNotFound;
    }
    var req := store.requests[found.value];
    var last := Latest(store.logs, ByCode(req.uniqueCode));
    if last.Some? && store.logs[last.value].status == CheckedIn && store.logs[last.value].day == today {
      return AlreadyCheckedIn(req.name);
    }
    CheckInRequestKeeps(store.State(), req, actor, today);
    CheckInRequestInStore(store, req, actor, today);
    outcome := CheckedInNow(req.name);
  }

  // ----- direct_checkin_group -----

  /** `Request.query.filter_by(group_code=...).all()`, whatever the requests' status. */
  function GroupMembers(requests: seq<Request>, groupCode: string): seq<Request>
  {
    Filter(requests, (q: Request) => q.groupCode == Some(groupCode))
  }

  /** Every entry from position `from` on is a check-in by `actor` on day `today`. */
  predicate AllStaffCheckIns(logs: seq<VisitorLog>, from: nat, actor: Actor, today: Day)
  {
    forall j :: from <= j < |logs| ==>
      logs[j].status == CheckedIn && logs[j].day == today && logs[j].checkInBy == Some(actor.id)
  }

  /** One turn of the group loop on the store and count so far: a member already checked
      in today is skipped, any other is checked in and counted. */
  function CheckInNext(prev: (Db, nat), req: Request, actor: Actor, today: Day): (r: (Db, nat))
    ensures r.0.requests == prev.0.requests
    ensures r.1 == prev.1 || r.1 == prev.1 + 1
    ensures r.1 == prev.1 <==> CheckedInToday(prev.0.logs, req.uniqueCode, today)
    ensures |r.0.logs| == |prev.0.logs| + (r.1 - prev.1) && r.0.logs[..|prev.0.logs|] == prev.0.logs
    ensures r.0.nextSession == prev.0.nextSession + (r.1 - prev.1)
  {
    if CheckedInToday(prev.0.logs, req.uniqueCode, today) then prev
    else (CheckInRequest(prev.0, req, actor, today), prev.1 + 1)
  }

  /** The group loop over `members`; the count is the number of entries appended. */
  function CheckInMembers(db: Db, members: seq<Request>, actor: Actor, today: Day): (r: (Db, nat))
    ensures r.0.requests == db.requests
    ensures r.1 <= |members|
    ensures |r.0.logs| == |db.logs| + r.1 && r.0.logs[..|db.logs|] == db.logs
    ensures r.0.nextSession == db.nextSession + r.1
  {
    if |members| == 0 then (db, 0)
    else
      var prev := CheckInMembers(db, members[..|members| - 1], actor, today);
      var r := CheckInNext(prev, members[|members| - 1], actor, today);
      assert r.0.logs[..|db.logs|] == r.0.logs[..|prev.0.logs|][..|db.logs|];
      r
  }

  lemma CheckInMembersStep(db: Db, members: seq<Request>, i: nat, actor: Actor, today: Day)
    requires i < |members|
    ensures CheckInMembers(db, members[..i + 1], actor, today) ==
            CheckInNext(CheckInMembers(db, members[..i], actor, today), members[i], actor, today)
  {
    assert members[..i + 1][..i] == members[..i];
  }

  /** `direct_checkin_group`: the store and the reported `checked_in_count`. */
  function DirectCheckinGroupSpec(db: Db, groupCode: string, actor: Actor, today: Day): (r: (Db, nat))
    ensures r.0.requests == db.requests
    ensures |r.0.logs| == |db.logs| + r.1 && r.0.logs[..|db.logs|] == db.logs
    ensures r.1 <= |GroupMembers(db.requests, groupCode)|
  {
    CheckInMembers(db, GroupMembers(db.requests, groupCode), actor, today)
  }

  /** Every entry the group loop appends is a same-day check-in by the actor. */
  lemma {:induction false} CheckInMembersEntries(db: Db, members: seq<Request>, actor: Actor, today: Day)
    ensures AllStaffCheckIns(CheckInMembers(db, members, actor, today).0.logs, |db.logs|, actor, today)
  {
    if |members| > 0 {
      var n := |members| - 1;
      CheckInMembersEntries(db, members[..n], actor, today);
      var d := CheckInMembers(db, members[..n], actor, today).0;
      var d' := CheckInMembers(db, members, actor, today).0;
      if d' != d {
        assert d'.logs[..|d.logs|] == d.logs;
        forall j | |db.logs| <= j < |d'.logs|
          ensures d'.logs[j].status == CheckedIn && d'.logs[j].day == today && d'.logs[j].checkInBy == Some(actor.id)
        {
          if j < |d.logs| {
            assert d'.logs[j] == d.logs[j];
          }
        }
      }
    }
  }

  /** One turn of the group loop leaves every code checked in today still so, and leaves
      its member's code checked in today. */
  lemma CheckInNextIn(prev: (Db, nat), req: Request, actor: Actor, today: Day, code: string)
    ensures var d := CheckInNext(prev, req, actor, today).0;
      && CheckedInToday(d.logs, req.uniqueCode, today)
      && (CheckedInToday(prev.0.logs, code, today) ==> CheckedInToday(d.logs, code, today))
  {
    if !CheckedInToday(prev.0.logs, req.uniqueCode, today) {
      var d := CheckInRequest(prev.0, req, actor, today);
      var e := d.logs[|prev.0.logs|];
      assert d.logs == prev.0.logs + [e];
      CheckedInTodayAppend(prev.0.logs, e, code, today);
      CheckedInTodayAppend(prev.0.logs, e, req.uniqueCode, today);
    }
  }

  /** After the group loop every member is checked in today. */
  lemma {:induction false} CheckInMembersAllIn(db: Db, members: seq<Request>, actor: Actor, today: Day)
    ensures forall k :: 0 <= k < |members| ==>
      CheckedInToday(CheckInMembers(db, members, actor, today).0.logs, members[k].uniqueCode, today)
  {
    if |members| > 0 {
      var n := |members| - 1;
      CheckInMembersAllIn(db, members[..n], actor, today);
      var prev := CheckInMembers(db, members[..n], actor, today);
      assert CheckInMembers(db, members, actor, today) == CheckInNext(prev, members[n], actor, today);
      forall k | 0 <= k < |members|
        ensures CheckedInToday(CheckInNext(prev, members[n], actor, today).0.logs, members[k].uniqueCode, today)
      {
        CheckInNextIn(prev, members[n], actor, today, members[k].uniqueCode);
        if k < n {
          assert members[..n][k] == members[k];
        }
      }
    }
  }

  /** When every member is already checked in today, the group loop changes nothing. */
  lemma {:induction false} CheckInMembersIdle(db: Db, members: seq<Request>, actor: Actor, today: Day)
    requires forall k :: 0 <= k < |members| ==> CheckedInToday(db.logs, members[k].uniqueCode, today)
    ensures CheckInMembers(db, members, actor, today) == (db, 0)
  {
    if |members| > 0 {
      var n := |members| - 1;
      forall k | 0 <= k < n ensures CheckedInToday(db.logs, members[..n][k].uniqueCode, today) {
        assert members[..n][k] == members[k];
      }
      CheckInMembersIdle(db, members[..n], actor, today);
      assert CheckedInToday(db.logs, members[n].uniqueCode, today);
      assert CheckInMembers(db, members, actor, today) == CheckInNext((db, 0), members[n], actor, today);
    }
  }

  /** A second group check-in on the same day checks nobody in. */
  lemma DirectCheckinGroupTwice(db: Db, groupCode: string, actor1: Actor, actor2: Actor, today: Day)
    ensures var d := DirectCheckinGroupSpec(db, groupCode, actor1, today).0;
      DirectCheckinGroupSpec(d, groupCode, actor2, today) == (d, 0)
  {
    var members := GroupMembers(db.requests, groupCode);
    CheckInMembersAllIn(db, members, actor1, today);
    var d := DirectCheckinGroupSpec(db, groupCode, actor1, today).0;
    CheckInMembersIdle(d, members, actor2, today);
  }

  /** The group loop keeps the ledger invariant. */
  lemma {:induction false} CheckInMembersKeeps(db: Db, members: seq<Request>, actor: Actor, today: Day)
    requires DbValid(db)
    ensures DbValid(CheckInMembers(db, members, actor, today).0)
  {
    if |members| > 0 {
      var n := |members| - 1;
      CheckInMembersKeeps(db, members[..n], actor, today);
      var d := CheckInMembers(db, members[..n], actor, today).0;
      CheckInRequestKeeps(d, members[n], actor, today);
    }
  }

  /** One turn of the group loop against the store. */
  method CheckInMember(store: Store, count: nat, req: Request, actor: Actor, today: Day) returns (count': nat)
    requires store.Valid()
    modifies store
    ensures store.Valid()
    ensures (store.State(), count') == CheckInNext((old(store.State()), count), req, actor, today)
  {
    count' := count;
    if !CheckedInToday(store.logs, req.uniqueCode, today) {
      CheckInRequestKeeps(store.State(), req, actor, today);
      CheckInRequestInStore(store, req, actor, today);
      count' := count + 1;
    }
  }

  method DirectCheckinGroup(store: Store, groupCode: string, actor: Actor, today: Day) returns (checkedInCount: nat)
    requires store.Valid()
    modifies store
    ensures store.Valid()
    ensures (store.State(), checkedInCount) == DirectCheckinGroupSpec(old(store.State()), groupCode, actor, today)
  {
    ghost var db0 := store.State();
    var members := GroupMembers(store.requests, groupCode);
    checkedInCount := 0;
    var i := 0;
    while i < |members|
      invariant 0 <= i <= |members|
      invariant (store.State(), checkedInCount) == CheckInMembers(db0, members[..i], actor, today)
      invariant store.Valid()
    {
      CheckInMembersStep(db0, members, i, actor, today);
      checkedInCount := CheckInMember(store, checkedInCount, members[i], actor, today);
      i := i + 1;
    }
    assert members[..i] == members;
  }

  // ----- multi_form_entry -----

  /** The fields of row `idx` of the multi-visitor form (`first_name_{idx}`, ...), each as
      `request.form.get(name, "")` returns it. */
  datatype VisitorRow = VisitorRow(
    firstName: string, middleInitial: string, lastName: string, phone: string, noEmail: string,
    email: string, purpose: string, otherPurpose: string, destination: string, address: string)

  /** One accepted visitor row, its fields as they are stored. */
  datatype Entry = Entry(name: string, email: string, phone: string, purpose: string, destination: string, address: string)

  /** The purpose of a row: "Other" is replaced by `other_purpose` only when that is non-empty. */
  function RowPurpose(row: VisitorRow): (p: string)
    ensures Strip(row.purpose) != "Other" ==> p == Strip(row.purpose)
    ensures Strip(row.purpose) == "Other" && Strip(row.otherPurpose) != "" ==> p == Strip(row.otherPurpose)
    ensures Strip(row.purpose) == "Other" && Strip(row.otherPurpose) == "" ==> p == "Other"
  {
    var p := Strip(row.purpose);
    if p == "Other" && Strip(row.otherPurpose) != "" then Strip(row.otherPurpose) else p
  }

  /** The row's name: first, the middle initial with its dot, and last, stripped once more. */
  function RowName(row: VisitorRow): string
  {
    var raw := Strip(row.middleInitial);
    var middle := if raw != "" then [UpperChar(raw[0]), '.'] else "";
    Strip(Strip(row.firstName) + " " + (if middle != "" then middle + " " else "") + Strip(row.lastName))
  }

  predicate RowComplete(row: VisitorRow)
  {
    && Strip(row.firstName) != "" && Strip(row.lastName) != "" && Strip(row.phone) != ""
    && RowPurpose(row) != "" && Strip(row.destination) != "" && Strip(row.address) != ""
  }

  function RowEntry(row: VisitorRow): Entry
  {
    Entry(RowName(row), if row.noEmail != "" then "" else Strip(row.email), Strip(row.phone),
          RowPurpose(row), Strip(row.destination), Strip(row.address))
  }

  /** A complete row's name is composed exactly as `submit_request` composes it: the final
      strip changes nothing. */
  lemma RowNameIsFullName(row: VisitorRow)
    requires RowComplete(row)
    ensures RowName(row) == FullName(Strip(row.firstName), Strip(row.middleInitial), Strip(row.lastName))
  {
    var first, raw, last := Strip(row.firstName), Strip(row.middleInitial), Strip(row.lastName);
    var s := first + " " + (if raw != "" then [UpperChar(raw[0]), '.'] + " " else "") + last;
    var name := FullName(first, raw, last);
    assert s == name;
    assert s[0] == first[0] && s[|s| - 1] == last[|last| - 1];
    StripUnchanged(s);
  }

  /** The entries read from row `idx` on, after the entries `acc` already read: reading stops
      at the first row whose first name is empty (or past the last row), and an incomplete
      row is skipped without stopping. */
  function EntriesFrom(rows: seq<VisitorRow>, idx: nat, acc: seq<Entry>): (es: seq<Entry>)
    requires idx <= |rows|
    ensures |acc| <= |es| <= |acc| + (|rows| - idx)
    ensures es[..|acc|] == acc
    decreases |rows| - idx
  {
    if idx == |rows| || Strip(rows[idx].firstName) == "" then acc
    else if RowComplete(rows[idx]) then
      var es := EntriesFrom(rows, idx + 1, acc + [RowEntry(rows[idx])]);
      assert es[..|acc|] == es[..|acc| + 1][..|acc|];
      es
    else EntriesFrom(rows, idx + 1, acc)
  }

  /** The entries `multi_form_entry` turns into requests, in row order. */
  function Entries(rows: seq<VisitorRow>): (es: seq<Entry>)
    ensures |es| <= |rows|
  {
    EntriesFrom(rows, 0, [])
  }

  lemma {:induction false} EntriesFromStop(rows: seq<VisitorRow>, k: nat, idx: nat, acc: seq<Entry>)
    requires idx <= k < |rows| && Strip(rows[k].firstName) == ""
    ensures EntriesFrom(rows, idx, acc) == EntriesFrom(rows[..k], idx, acc)
    decreases k - idx
  {
    if idx < k {
      assert rows[..k][idx] == rows[idx];
      if Strip(rows[idx].firstName) != "" {
        if RowComplete(rows[idx]) {
          EntriesFromStop(rows, k, idx + 1, acc + [RowEntry(rows[idx])]);
        } else {
          EntriesFromStop(rows, k, idx + 1, acc);
        }
      }
    }
  }

  /** One turn of the row loop: a row with a first name is read, and kept when complete. */
  lemma EntriesFromNext(rows: seq<VisitorRow>, idx: nat, acc: seq<Entry>, complete: bool, e: Entry)
    requires idx < |rows| && Strip(rows[idx].firstName) != ""
    requires complete == RowComplete(rows[idx]) && e == RowEntry(rows[idx])
    ensures EntriesFrom(rows, idx, acc) == EntriesFrom(rows, idx + 1, if complete then acc + [e] else acc)
  {
  }

  /** Nothing at or after the first row with an empty first name is read. */
  lemma EntriesStopAtBlank(rows: seq<VisitorRow>, k: nat)
    requires k < |rows| && Strip(rows[k].firstName) == ""
    ensures Entries(rows) == Entries(rows[..k])
  {
    EntriesFromStop(rows, k, 0, []);
  }

  /** Every stored entry has all required fields and a composed name. */
  predicate EntryComplete(e: Entry)
  {
    |e.name| >= 3 && e.phone != "" && e.purpose != "" && e.destination != "" && e.address != ""
  }

  lemma {:induction false} EntriesFromComplete(rows: seq<VisitorRow>, idx: nat, acc: seq<Entry>)
    requires idx <= |rows|
    requires forall k :: 0 <= k < |acc| ==> EntryComplete(acc[k])
    ensures forall k :: 0 <= k < |EntriesFrom(rows, idx, acc)| ==> EntryComplete(EntriesFrom(rows, idx, acc)[k])
    decreases |rows| - idx
  {
    if idx < |rows| && Strip(rows[idx].firstName) != "" {
      if RowComplete(rows[idx]) {
        RowNameIsFullName(rows[idx]);
        EntriesFromComplete(rows, idx + 1, acc + [RowEntry(rows[idx])]);
      } else {
        EntriesFromComplete(rows, idx + 1, acc);
      }
    }
  }

  /** Every entry read has its required fields filled in. */
  lemma EntriesComplete(rows: seq<VisitorRow>)
    ensures forall k :: 0 <= k < |Entries(rows)| ==> EntryComplete(Entries(rows)[k])
  {
    EntriesFromComplete(rows, 0, []);
  }

  /** The request created for an accepted entry. */
  function EntryRequest(e: Entry, id: nat, code: string, gc: Option<string>): Request
  {
    Request(id, e.name, e.email, e.phone, e.purpose, e.destination, e.address, code, Approve, gc, None)
  }

  /** The requests created for `entries`, with ids after `base`, the k-th drawn code, and group code `gc`. */
  function EntryRequests(entries: seq<Entry>, base: nat, codes: seq<string>, gc: Option<string>): (rs: seq<Request>)
    requires |codes| >= |entries|
    ensures |rs| == |entries|
  {
    if |entries| == 0 then []
    else
      var n := |entries| - 1;
      EntryRequests(entries[..n], base, codes, gc) + [EntryRequest(entries[n], base + n + 1, codes[n], gc)]
  }

  /** The k-th created request is the k-th entry with id `base + k + 1` and the k-th code. */
  lemma {:induction false} EntryRequestsAt(entries: seq<Entry>, base: nat, codes: seq<string>, gc: Option<string>)
    requires |codes| >= |entries|
    ensures forall k :: 0 <= k < |entries| ==>
      EntryRequests(entries, base, codes, gc)[k] == EntryRequest(entries[k], base + k + 1, codes[k], gc)
  {
    if |entries| > 0 {
      var n := |entries| - 1;
      EntryRequestsAt(entries[..n], base, codes, gc);
      forall k | 0 <= k < n
        ensures EntryRequests(entries, base, codes, gc)[k] == EntryRequest(entries[k], base + k + 1, codes[k], gc)
      {
        assert entries[..n][k] == entries[k];
      }
    }
  }

  lemma EntryRequestsAppend(entries: seq<Entry>, e: Entry, base: nat, codes: seq<string>, gc: Option<string>)
    requires |codes| > |entries|
    ensures EntryRequests(entries + [e], base, codes, gc) ==
            EntryRequests(entries, base, codes, gc) + [EntryRequest(e, base + |entries| + 1, codes[|entries|], gc)]
  {
    assert (entries + [e])[..|entries|] == entries;
  }

  /** `visitors_data`: each created request's name and code, in order. */
  function VisitorsData(created: seq<Request>): (data: seq<(string, string)>)
    ensures |data| == |created|
    ensures forall k :: 0 <= k < |data| ==> data[k] == (created[k].name, created[k].uniqueCode)
  {
    seq(|created|, k requires 0 <= k < |created| => (created[k].name, created[k].uniqueCode))
  }

  datatype MultiOutcome =
    | NoValidEntries
    | MultiRegistered(visitors: seq<(string, string)>, groupCode: Option<string>)

  /** The group code of a multi-visitor registration: a fresh code only for more than one request. */
  function MultiGroupCode(count: nat, codes: seq<string>): (gc: Option<string>)
    requires |codes| > count
    ensures gc.Some? <==> count > 1
  {
    if count > 1 then Some(codes[count]) else None
  }

  /** `multi_form_entry` on POST. `rows[k]` holds the fields of row k+1, and reading past the
      last row finds an empty first name; `codes` are the successive values
      `generate_unique_secure_code` returns: one per created request, then one for the group. */
  function MultiFormSpec(db: Db, rows: seq<VisitorRow>, codes: seq<string>): (r: (Db, MultiOutcome))
    requires |codes| > |rows|
    ensures r.1.NoValidEntries? <==> |Entries(rows)| == 0
    ensures r.1.NoValidEntries? ==> r.0 == db
    ensures r.1.MultiRegistered? ==>
      var rs := EntryRequests(Entries(rows), |db.requests|, codes, r.1.groupCode);
      && r.1.groupCode == MultiGroupCode(|Entries(rows)|, codes)
      && r.0 == db.(requests := db.requests + rs)
      && r.1.visitors == VisitorsData(rs)
  {
    var es := Entries(rows);
    if |es| == 0 then (db, NoValidEntries)
    else
      var gc := MultiGroupCode(|es|, codes);
      var rs := EntryRequests(es, |db.requests|, codes, gc);
      (db.(requests := db.requests + rs), MultiRegistered(VisitorsData(rs), gc))
  }

  /** Every request of one multi-visitor registration is approved, takes the next code, and
      they all share one group code, which exists exactly when there are at least two. */
  lemma MultiFormGroup(db: Db, rows: seq<VisitorRow>, codes: seq<string>)
    requires |codes| > |rows|
    ensures var r := MultiFormSpec(db, rows, codes);
      var n := |Entries(rows)|;
      && |r.0.requests| == |db.requests| + n && r.0.requests[..|db.requests|] == db.requests
      && forall k :: |db.requests| <= k < |r.0.requests| ==>
           && r.0.requests[k].status == Approve
           && r.0.requests[k].uniqueCode == codes[k - |db.requests|]
           && (r.0.requests[k].groupCode.Some? <==> n > 1)
           && (n > 1 ==> r.0.requests[k].groupCode == Some(codes[n]))
  {
    var es := Entries(rows);
    if |es| > 0 {
      var rs := EntryRequests(es, |db.requests|, codes, MultiGroupCode(|es|, codes));
      EntryRequestsAt(es, |db.requests|, codes, MultiGroupCode(|es|, codes));
      assert (db.requests + rs)[..|db.requests|] == db.requests;
      forall k | |db.requests| <= k < |db.requests| + |es| ensures (db.requests + rs)[k] == rs[k - |db.requests|] { }
    }
  }

  /** Codes the generator delivers: none is used by a stored request. */
  predicate UnusedCodes(codes: seq<string>, requests: seq<Request>)
  {
    forall i :: 0 <= i < |codes| ==> codes[i] !in Codes(requests)
  }

  /** Codes drawn while each earlier request is already in the session, where the
      generator's query sees it: pairwise distinct as well as unused. */
  predicate FreshCodes(codes: seq<string>, requests: seq<Request>)
  {
    && (forall i, j :: 0 <= i < j < |codes| ==> codes[i] != codes[j])
    && UnusedCodes(codes, requests)
  }

  /** Requests created with fresh codes keep codes unique. */
  lemma EntryRequestsKeep(requests: seq<Request>, entries: seq<Entry>, codes: seq<string>, gc: Option<string>)
    requires |codes| >= |entries| && CodesUnique(requests) && FreshCodes(codes, requests)
    ensures CodesUnique(requests + EntryRequests(entries, |requests|, codes, gc))
  {
    EntryRequestsAt(entries, |requests|, codes, gc);
    AppendFreshCodes(requests, EntryRequests(entries, |requests|, codes, gc));
  }

  /** The body of the row loop up to its validation: the row's cleaned fields, and whether
      all required ones are present. */
  method ReadRow(row: VisitorRow) returns (complete: bool, e: Entry)
    ensures complete == RowComplete(row) && e == RowEntry(row)
  {
    var first := Strip(row.firstName);
    var middleRaw := Strip(row.middleInitial);
    var middle := if middleRaw != "" then [UpperChar(middleRaw[0]), '.'] else "";
    var last := Strip(row.lastName);
    var phone := Strip(row.phone);
    var email := if row.noEmail != "" then "" else Strip(row.email);
    var purpose := Strip(row.purpose);
    if purpose == "Other" {
      var other := Strip(row.otherPurpose);
      if other != "" {
        purpose := other;
      }
    }
    var destination := Strip(row.destination);
    var address := Strip(row.address);
    complete := first != "" && last != "" && phone != "" && purpose != "" && destination != "" && address != "";
    var fullName := Strip(first + " " + (if middle != "" then middle + " " else "") + last);
    e := Entry(fullName, email, phone, purpose, destination, address);
  }

  /** A complete row: its entry joins `done` and its request, with the next number and
      code, joins `created`. */
  method StageEntry(ghost done: seq<Entry>, created: seq<Request>, e: Entry, base: nat, codes: seq<string>)
    returns (ghost done': seq<Entry>, created': seq<Request>)
    requires |codes| > |done| && |created| == |done| && created == EntryRequests(done, base, codes, None)
    ensures done' == done + [e]
    ensures |created'| == |done'| && created' == EntryRequests(done', base, codes, None)
  {
    EntryRequestsAppend(done, e, base, codes, None);
    created' := created + [EntryRequest(e, base + |created| + 1, codes[|created|], None)];
    done' := done + [e];
  }

  /** The row loop of `multi_form_entry`: the entries read and the requests staged for them
      (`created`), not yet in any group. */
  method ReadRows(rows: seq<VisitorRow>, base: nat, codes: seq<string>) returns (ghost done: seq<Entry>, created: seq<Request>)
    requires |codes| > |rows|
    ensures done == Entries(rows) && created == EntryRequests(done, base, codes, None)
  {
    done, created := [], [];
    var idx := 0;
    while true
      invariant 0 <= idx <= |rows| && |done| <= idx
      invariant EntriesFrom(rows, idx, done) == Entries(rows)
      invariant |created| == |done| && created == EntryRequests(done, base, codes, None)
      decreases |rows| - idx
    {
      if idx >= |rows| || Strip(rows[idx].firstName) == "" {
        break;
      }
      var complete, e := ReadRow(rows[idx]);
      EntriesFromNext(rows, idx, done, complete, e);
      if complete {
        done, created := StageEntry(done, created, e, base, codes);
      }
      idx := idx + 1;
    }
  }

  /** `for r in created: r.group_code = group_code`. */
  method SetGroupCode(created: seq<Request>, ghost done: seq<Entry>, ghost base: nat, ghost codes: seq<string>, gc: Option<string>)
    returns (grouped: seq<Request>)
    requires |codes| >= |done| && created == EntryRequests(done, base, codes, None)
    ensures grouped == EntryRequests(done, base, codes, gc)
  {
    EntryRequestsAt(done, base, codes, None);
    EntryRequestsAt(done, base, codes, gc);
    grouped := created;
    for k := 0 to |grouped|
      invariant |grouped| == |done|
      invariant forall j :: 0 <= j < k ==> grouped[j] == EntryRequest(done[j], base + j + 1, codes[j], gc)
      invariant forall j :: k <= j < |done| ==> grouped[j] == EntryRequest(done[j], base + j + 1, codes[j], None)
    {
      grouped := grouped[k := grouped[k].(groupCode := gc)];
    }
  }

  method MultiFormEntry(store: Store, rows: seq<VisitorRow>, codes: seq<string>) returns (outcome: MultiOutcome)
    requires |codes| > |rows| && store.Valid() && FreshCodes(codes, store.requests)
    modifies store
    ensures store.Valid()
    ensures (store.State(), outcome) == MultiFormSpec(old(store.State()), rows, codes)
  {
    var done, created := ReadRows(rows, |store.requests|, codes);
    if |created| == 0 {
      return NoValidEntries;
    }
    var groupCode: Option<string> := None;
    if |created| > 1 {
      groupCode := Some(codes[|created|]);
      created := SetGroupCode(created, done, |store.requests|, codes, groupCode);
    } else {
      created := SetGroupCode(created, done, |store.requests|, codes, None);
    }
    EntryRequestsKeep(store.requests, done, codes, groupCode);
    store.AddRequests(created);
    outcome := MultiRegistered(VisitorsData(created), groupCode);
  }

  // ----- upload_csv -----

  /** A spreadsheet cell as pandas reads it: text (numbers already rendered), or NaN for an
      empty cell, which `str()` turns into "nan". */
  datatype Cell = Text(s: string) | Blank

  /** One data row; a column the sheet lacks is None. */
  datatype SheetRow = SheetRow(
    name: Option<Cell>, email: Option<Cell>, phone: Option<Cell>,
    purpose: Option<Cell>, destination: Option<Cell>, address: Option<Cell>)

  /** `str(row.get(column, "")).strip()`. */
  function CellText(c: Option<Cell>): string
  {
    Strip(match c case None => "" case Some(Text(s)) => s case Some(Blank) => "nan")
  }

  /** An uploaded file: its name, and the rows pandas reads from it (None when reading fails). */
  datatype Upload = Upload(filename: string, sheet: Option<seq<SheetRow>>)

  /** `CommitFailed` is the commit the `unique` constraint on `unique_code` rejects when two
      rows of one sheet drew the same code: the handler does not catch the error, so the
      reply is a server error and nothing is stored. */
  datatype UploadOutcome = NoFileSelected | InvalidFormat | ProcessingFailed | NoValidRows | CommitFailed | Uploaded(count: nat)

  /** `filename.rsplit(".", 1)[-1].lower()`. */
  function Extension(filename: string): string
  {
    Lower(LastSegment(filename, '.'))
  }

  predicate IsSheetExtension(ext: string)
  {
    ext == "csv" || ext == "xlsx" || ext == "xls"
  }

  /** The request created from a row with a non-empty Name. */
  function SheetRequest(row: SheetRow, id: nat, code: string, token: string): Request
  {
    Request(id, CellText(row.name), CellText(row.email), CellText(row.phone), CellText(row.purpose),
            CellText(row.destination), CellText(row.address), code, Approve, Some(token), None)
  }

  /** One turn of the upload loop: a row with an empty Name is skipped, any other row
      adds a request with the next id and the next code. */
  function SheetNext(prev: seq<Request>, row: SheetRow, base: nat, codes: seq<string>, token: string): (rs: seq<Request>)
    requires |prev| < |codes|
    ensures rs == prev || rs == prev + [SheetRequest(row, base + |prev| + 1, codes[|prev|], token)]
    ensures rs == prev <==> CellText(row.name) == ""
  {
    if CellText(row.name) == "" then prev
    else prev + [SheetRequest(row, base + |prev| + 1, codes[|prev|], token)]
  }

  /** The requests created from `rows`: rows with an empty Name are skipped, and every created
      request carries the upload's group code `token`. */
  function SheetRequests(rows: seq<SheetRow>, base: nat, codes: seq<string>, token: string): (rs: seq<Request>)
    requires |codes| >= |rows|
    ensures |rs| <= |rows|
    ensures forall k :: 0 <= k < |rs| ==>
      && rs[k].id == base + k + 1 && rs[k].uniqueCode == codes[k] && rs[k].name != ""
      && rs[k].status == Approve && rs[k].groupCode == Some(token) && rs[k].approvedBy == None
  {
    if |rows| == 0 then []
    else SheetNext(SheetRequests(rows[..|rows| - 1], base, codes, token), rows[|rows| - 1], base, codes, token)
  }

  lemma SheetRequestsStep(rows: seq<SheetRow>, i: nat, base: nat, codes: seq<string>, token: string)
    requires i < |rows| <= |codes|
    ensures SheetRequests(rows[..i + 1], base, codes, token) ==
            SheetNext(SheetRequests(rows[..i], base, codes, token), rows[i], base, codes, token)
  {
    assert rows[..i + 1][..i] == rows[..i];
  }

  /** One request per row with a non-empty Name. */
  lemma {:induction false} SheetRequestsCount(rows: seq<SheetRow>, base: nat, codes: seq<string>, token: string)
    requires |codes| >= |rows|
    ensures |SheetRequests(rows, base, codes, token)| == Count(rows, (row: SheetRow) => CellText(row.name) != "")
  {
    if |rows| > 0 {
      SheetRequestsCount(rows[..|rows| - 1], base, codes, token);
    }
  }

  /** `upload_csv`. `secure` stands for `secure_filename`, `token` for the group code
      `secrets.token_urlsafe(12)` draws, `codes` for the successive values of
      `generate_unique_secure_code`. The rows reach the session only through `add_all`
      after the loop, so the generator cannot see the codes of earlier rows. */
  function UploadCsvSpec(db: Db, file: Option<Upload>, secure: string -> string, token: string, codes: seq<string>): (r: (Db, UploadOutcome))
    requires file.Some? && file.value.sheet.Some? ==> |codes| >= |file.value.sheet.value|
    ensures !r.1.Uploaded? ==> r.0 == db
    ensures r.1.NoFileSelected? <==> file.None? || file.value.filename == ""
    ensures r.1.InvalidFormat? <==> !r.1.NoFileSelected? && !IsSheetExtension(Extension(secure(file.value.filename)))
    ensures r.1.ProcessingFailed? <==>
      !r.1.NoFileSelected? && !r.1.InvalidFormat? && file.value.sheet.None?
    ensures r.1.NoValidRows? || r.1.CommitFailed? || r.1.Uploaded? ==> file.Some? && file.value.sheet.Some?
    ensures r.1.NoValidRows? || r.1.CommitFailed? || r.1.Uploaded? ==>
      var rs := SheetRequests(file.value.sheet.value, |db.requests|, codes, token);
      && (r.1.NoValidRows? <==> |rs| == 0)
      && (r.1.CommitFailed? <==> |rs| > 0 && !CodesUnique(rs))
      && (r.1.Uploaded? ==> r.1.count == |rs| > 0 && CodesUnique(rs) && r.0 == db.(requests := db.requests + rs))
  {
    if file.None? || file.value.filename == "" then (db, NoFileSelected)
    else if !IsSheetExtension(Extension(secure(file.value.filename))) then (db, InvalidFormat)
    else if file.value.sheet.None? then (db, ProcessingFailed)
    else
      var rs := SheetRequests(file.value.sheet.value, |db.requests|, codes, token);
      if |rs| == 0 then (db, NoValidRows)
      else if !CodesUnique(rs) then (db, CommitFailed)
      else (db.(requests := db.requests + rs), Uploaded(|rs|))
  }

  /** A committed upload keeps codes unique: its codes are unused by stored requests, and
      the commit goes through only when they are also pairwise distinct. */
  lemma SheetRequestsFresh(requests: seq<Request>, rows: seq<SheetRow>, codes: seq<string>, token: string)
    requires |codes| >= |rows| && CodesUnique(requests) && UnusedCodes(codes, requests)
    requires CodesUnique(SheetRequests(rows, |requests|, codes, token))
    ensures CodesUnique(requests + SheetRequests(rows, |requests|, codes, token))
  {
    AppendFreshCodes(requests, SheetRequests(rows, |requests|, codes, token));
  }

  /** Two named rows that draw the same code make the commit fail, and nothing is stored. */
  lemma UploadRepeatedCodeFails(db: Db, f: Upload, secure: string -> string, token: string, codes: seq<string>)
    requires f.filename != "" && IsSheetExtension(Extension(secure(f.filename))) && f.sheet.Some?
    requires |codes| >= |f.sheet.value|
    requires Count(f.sheet.value, (row: SheetRow) => CellText(row.name) != "") >= 2
    requires codes[0] == codes[1]
    ensures UploadCsvSpec(db, Some(f), secure, token, codes) == (db, CommitFailed)
  {
    SheetRequestsCount(f.sheet.value, |db.requests|, codes, token);
  }

  /** The loop over the sheet's rows, collecting `created_requests`. */
  method CollectRows(rows: seq<SheetRow>, base: nat, codes: seq<string>, token: string) returns (created: seq<Request>)
    requires |codes| >= |rows|
    ensures created == SheetRequests(rows, base, codes, token)
  {
    created := [];
    for i := 0 to |rows|
      invariant created == SheetRequests(rows[..i], base, codes, token)
    {
      SheetRequestsStep(rows, i, base, codes, token);
      var fullName := CellText(rows[i].name);
      if fullName != "" {
        created := created + [SheetRequest(rows[i], base + |created| + 1, codes[|created|], token)];
      }
    }
    assert rows[..|rows|] == rows;
  }

  method UploadCsv(store: Store, file: Option<Upload>, secure: string -> string, token: string, codes: seq<string>)
    returns (outcome: UploadOutcome)
    requires file.Some? && file.value.sheet.Some? ==> |codes| >= |file.value.sheet.value|
    requires store.Valid() && UnusedCodes(codes, store.requests)
    modifies store
    ensures store.Valid()
    ensures (store.State(), outcome) == UploadCsvSpec(old(store.State()), file, secure, token, codes)
  {
    if file.None? || file.value.filename == "" {
      return NoFileSelected;
    }
    var ext := Extension(secure(file.value.filename));
    if !IsSheetExtension(ext) {
      return InvalidFormat;
    }
    if file.value.sheet.None? {
      return ProcessingFailed;
    }
    var created := CollectRows(file.value.sheet.value, |store.requests|, codes, token);
    if |created| == 0 {
      return NoValidRows;
    }
    if !CodesUnique(created) {
      return CommitFailed;
    }
    SheetRequestsFresh(store.requests, file.value.sheet.value, codes, token);
    store.AddRequests(created);
    outcome := Uploaded(|created|);
  }

  // ----- request_page -----

  /** The key `request_page` files a request under: its group code when set (and non-empty),
      else "single-<id>". */
  function GroupKey(r: Request): string
  {
    if r.groupCode.Some? && r.groupCode.value != "" then r.groupCode.value else "single-" + NatToString(r.id)
  }

  /** The requests filed under `key`, in list order. */
  function GroupOf(requests: seq<Request>, key: string): (g: seq<Request>)
    ensures |g| <= |requests|
    ensures forall j :: 0 <= j < |g| ==> GroupKey(g[j]) == key
    ensures |g| == 0 <==> forall i :: 0 <= i < |requests| ==> GroupKey(requests[i]) != key
  {
    if |requests| == 0 then []
    else
      var n := |requests| - 1;
      GroupOf(requests[..n], key) + (if GroupKey(requests[n]) == key then [requests[n]] else [])
  }

  /** Every listed request is filed under its own key and under no other. */
  lemma {:induction false} GroupOfPartition(requests: seq<Request>, i: nat, key: string)
    requires i < |requests|
    ensures requests[i] in GroupOf(requests, key) <==> GroupKey(requests[i]) == key
  {
    var n := |requests| - 1;
    if i < n {
      GroupOfPartition(requests[..n], i, key);
      assert requests[..n][i] == requests[i];
    }
  }

  /** One of the first `n` listed requests is filed under `key`. */
  predicate FiledUnder(requests: seq<Request>, n: nat, key: string)
    requires n <= |requests|
  {
    exists i :: 0 <= i < n && GroupKey(requests[i]) == key
  }

  /** The keys of the first `n` listed requests in the order they first appear: the order
      in which the `defaultdict`, an insertion-ordered dictionary, holds them and the page
      renders them. */
  function GroupKeys(requests: seq<Request>, n: nat): (keys: seq<string>)
    requires n <= |requests|
    ensures |keys| <= n
  {
    if n == 0 then []
    else
      var keys := GroupKeys(requests, n - 1);
      var key := GroupKey(requests[n - 1]);
      if key in keys then keys else keys + [key]
  }

  lemma GroupOfNext(requests: seq<Request>, i: nat, key: string)
    requires i < |requests|
    ensures GroupKey(requests[i]) == key ==> GroupOf(requests[..i + 1], key) == GroupOf(requests[..i], key) + [requests[i]]
    ensures GroupKey(requests[i]) != key ==> GroupOf(requests[..i + 1], key) == GroupOf(requests[..i], key)
  {
    assert requests[..i + 1][..i] == requests[..i];
    assert GroupOf(requests[..i], key) + [] == GroupOf(requests[..i], key);
  }

  /** The keys are exactly the keys some of the first `n` requests are filed under. */
  lemma {:induction false} GroupKeysCover(requests: seq<Request>, n: nat)
    requires n <= |requests|
    ensures forall key :: key in GroupKeys(requests, n) <==> FiledUnder(requests, n, key)
  {
    if n > 0 {
      GroupKeysCover(requests, n - 1);
      var ks := GroupKeys(requests, n - 1);
      var key0 := GroupKey(requests[n - 1]);
      var keys := GroupKeys(requests, n);
      forall k ensures k in keys <==> FiledUnder(requests, n, k) {
        if k == key0 {
          assert GroupKey(requests[n - 1]) == k;
        } else {
          assert k in keys <==> k in ks;
          assert FiledUnder(requests, n, k) ==> FiledUnder(requests, n - 1, k);
        }
      }
    }
  }

  /** No key appears twice. */
  lemma {:induction false} GroupKeysDistinct(requests: seq<Request>, n: nat)
    requires n <= |requests|
    ensures forall a, b :: 0 <= a < b < |GroupKeys(requests, n)| ==> GroupKeys(requests, n)[a] != GroupKeys(requests, n)[b]
  {
    if n > 0 {
      GroupKeysDistinct(requests, n - 1);
      var ks := GroupKeys(requests, n - 1);
      var keys := GroupKeys(requests, n);
      forall a, b | 0 <= a < b < |keys| ensures keys[a] != keys[b] {
        assert keys[a] == ks[a] && ks[a] in ks;
      }
    }
  }

  /** The keys come in first-appearance order: every request of a later group is preceded
      by a request of each earlier group. */
  lemma {:induction false} GroupKeysOrder(requests: seq<Request>, n: nat)
    requires n <= |requests|
    ensures forall a, b, i :: 0 <= a < b < |GroupKeys(requests, n)| && 0 <= i < n && GroupKey(requests[i]) == GroupKeys(requests, n)[b] ==>
      exists j :: 0 <= j < i && GroupKey(requests[j]) == GroupKeys(requests, n)[a]
  {
    if n > 0 {
      GroupKeysOrder(requests, n - 1);
      GroupKeysCover(requests, n - 1);
      var ks := GroupKeys(requests, n - 1);
      var keys := GroupKeys(requests, n);
      forall a, b, i | 0 <= a < b < |keys| && 0 <= i < n && GroupKey(requests[i]) == keys[b]
        ensures exists j :: 0 <= j < i && GroupKey(requests[j]) == keys[a]
      {
        assert keys[a] == ks[a];
        var i0 := i;
        if i == n - 1 && b == |ks| {
          assert ks[a] in ks && FiledUnder(requests, n - 1, ks[a]);
          var j :| 0 <= j < n - 1 && GroupKey(requests[j]) == ks[a];
          assert j < i;
        } else {
          if i == n - 1 {
            assert keys == ks;
            assert ks[b] in ks && FiledUnder(requests, n - 1, ks[b]);
            i0 :| 0 <= i0 < n - 1 && GroupKey(requests[i0]) == ks[b];
          }
          assert b < |ks| && keys[b] == ks[b];
          assert 0 <= a < b < |ks| && 0 <= i0 < n - 1 && GroupKey(requests[i0]) == ks[b];
          var j :| 0 <= j < i0 && GroupKey(requests[j]) == ks[a];
          assert j < i;
        }
      }
    }
  }

  /** `grouped_requests` after the first `n` listed requests: each key, in first-appearance
      order, with its group. */
  function GroupList(requests: seq<Request>, n: nat): (groups: seq<(string, seq<Request>)>)
    requires n <= |requests|
    ensures |groups| == |GroupKeys(requests, n)|
    ensures forall k :: 0 <= k < |groups| ==>
      groups[k] == (GroupKeys(requests, n)[k], GroupOf(requests[..n], GroupKeys(requests, n)[k]))
  {
    var keys := GroupKeys(requests, n);
    seq(|keys|, k requires 0 <= k < |keys| => (keys[k], GroupOf(requests[..n], keys[k])))
  }

  /** Every listed request has exactly one group, holding the requests filed under its key
      in list order, and no group is empty. */
  lemma GroupListGroups(requests: seq<Request>)
    ensures var groups := GroupList(requests, |requests|);
      && (forall a, b :: 0 <= a < b < |groups| ==> groups[a].0 != groups[b].0)
      && (forall k :: 0 <= k < |groups| ==> groups[k].1 == GroupOf(requests, groups[k].0) != [])
      && (forall i :: 0 <= i < |requests| ==> exists k :: 0 <= k < |groups| && groups[k].0 == GroupKey(requests[i]))
  {
    var n := |requests|;
    var groups := GroupList(requests, n);
    var keys := GroupKeys(requests, n);
    assert requests[..n] == requests;
    GroupKeysDistinct(requests, n);
    GroupKeysCover(requests, n);
    forall a, b | 0 <= a < b < |groups| ensures groups[a].0 != groups[b].0 {
      assert a < b < |GroupKeys(requests, n)|;
      assert GroupKeys(requests, n)[a] != GroupKeys(requests, n)[b];
    }
    forall k | 0 <= k < |groups| ensures groups[k].1 != [] {
      assert keys[k] in keys;
      var i :| 0 <= i < n && GroupKey(requests[i]) == keys[k];
    }
    forall i | 0 <= i < n ensures exists k :: 0 <= k < |groups| && groups[k].0 == GroupKey(requests[i]) {
      assert FiledUnder(requests, n, GroupKey(requests[i]));
      var k :| 0 <= k < |keys| && keys[k] == GroupKey(requests[i]);
      assert groups[k].0 == keys[k];
    }
  }

  /** The dictionary lookup `grouped_requests[key]`: where `key` sits, if it is present. */
  function GroupIndex(groups: seq<(string, seq<Request>)>, key: string): (r: Option<nat>)
    ensures r.Some? ==> r.value < |groups| && groups[r.value].0 == key
    ensures r.None? <==> forall k :: 0 <= k < |groups| ==> groups[k].0 != key
  {
    FindFirst(groups, (g: (string, seq<Request>)) => g.0 == key)
  }

  /** A request whose key has a group joins it. */
  lemma GroupListJoin(requests: seq<Request>, i: nat, k: nat)
    requires i < |requests| && k < |GroupList(requests, i)|
    requires GroupList(requests, i)[k].0 == GroupKey(requests[i])
    ensures var groups := GroupList(requests, i);
      GroupList(requests, i + 1) == groups[k := (groups[k].0, groups[k].1 + [requests[i]])]
  {
    var ks := GroupKeys(requests, i);
    var groups := GroupList(requests, i);
    var next := GroupList(requests, i + 1);
    var key := GroupKey(requests[i]);
    GroupKeysDistinct(requests, i);
    assert groups[k].0 == ks[k] == key && ks[k] in ks;
    assert GroupKeys(requests, i + 1) == ks;
    var joined := groups[k := (groups[k].0, groups[k].1 + [requests[i]])];
    assert |next| == |ks| == |groups|;
    forall m | 0 <= m < |next| ensures next[m] == joined[m] {
      assert m < |GroupKeys(requests, i)| && m < |GroupKeys(requests, i + 1)|;
      GroupOfNext(requests, i, ks[m]);
      assert next[m] == (ks[m], GroupOf(requests[..i + 1], ks[m]));
      assert groups[m] == (ks[m], GroupOf(requests[..i], ks[m]));
      if m == k {
        assert joined[m] == (ks[k], GroupOf(requests[..i], ks[k]) + [requests[i]]);
      } else {
        if m < k {
          assert GroupKeys(requests, i)[m] != GroupKeys(requests, i)[k];
        } else {
          assert GroupKeys(requests, i)[k] != GroupKeys(requests, i)[m];
        }
        assert joined[m] == groups[m];
        assert GroupOf(requests[..i + 1], ks[m]) == GroupOf(requests[..i], ks[m]);
      }
    }
  }

  /** A request whose key has no group opens one at the end. */
  lemma GroupListOpen(requests: seq<Request>, i: nat)
    requires i < |requests|
    requires forall k :: 0 <= k < |GroupList(requests, i)| ==> GroupList(requests, i)[k].0 != GroupKey(requests[i])
    ensures GroupList(requests, i + 1) == GroupList(requests, i) + [(GroupKey(requests[i]), [requests[i]])]
  {
    var p := requests[..i];
    var ks := GroupKeys(requests, i);
    var key := GroupKey(requests[i]);
    var groups := GroupList(requests, i);
    var next := GroupList(requests, i + 1);
    GroupKeysCover(requests, i);
    assert key !in ks;
    assert !FiledUnder(requests, i, key);
    assert forall j :: 0 <= j < |p| ==> p[j] == requests[j];
    assert GroupOf(p, key) == [];
    assert GroupKeys(requests, i + 1) == ks + [key];
    assert |next| == |ks| + 1 && |groups| == |ks|;
    forall m | 0 <= m < |next| ensures next[m] == (groups + [(key, [requests[i]])])[m] {
      assert m < |GroupKeys(requests, i + 1)|;
      if m < |ks| {
        assert m < |GroupKeys(requests, i)|;
        GroupOfNext(requests, i, ks[m]);
        assert ks[m] != key;
        assert next[m] == (ks[m], GroupOf(requests[..i + 1], ks[m]));
        assert groups[m] == (ks[m], GroupOf(p, ks[m]));
        assert GroupOf(requests[..i + 1], ks[m]) == GroupOf(p, ks[m]);
        assert (groups + [(key, [requests[i]])])[m] == groups[m];
      } else {
        GroupOfNext(requests, i, key);
        assert next[m] == (key, GroupOf(requests[..i + 1], key));
        assert GroupOf(p, key) + [requests[i]] == [requests[i]];
      }
    }
  }

  /** `grouped_requests` built from the listed requests. */
  method GroupRequests(requests: seq<Request>) returns (groups: seq<(string, seq<Request>)>)
    ensures groups == GroupList(requests, |requests|)
  {
    groups := [];
    for i := 0 to |requests|
      invariant groups == GroupList(requests, i)
    {
      groups := FileRequest(requests, i, groups);
    }
  }

  /** One pass of the grouping loop: the `i`-th request joins its key's group, or opens one. */
  method FileRequest(requests: seq<Request>, i: nat, groups: seq<(string, seq<Request>)>)
    returns (groups': seq<(string, seq<Request>)>)
    requires i < |requests| && groups == GroupList(requests, i)
    ensures groups' == GroupList(requests, i + 1)
  {
    var key := GroupKey(requests[i]);
    match GroupIndex(groups, key) {
      case Some(k) =>
        GroupListJoin(requests, i, k);
        groups' := groups[k := (groups[k].0, groups[k].1 + [requests[i]])];
      case None =>
        GroupListOpen(requests, i);
        groups' := groups + [(key, [requests[i]])];
    }
  }

  /** `checked_in_codes`: the listed requests' codes whose newest entry is a check-in. */
  function CheckedInCodes(logs: seq<VisitorLog>, listed: seq<Request>): (codes: set<string>)
    ensures forall c :: c in codes <==> c in Codes(listed) && LatestIsIn(logs, ByCode(c))
  {
    set r | r in listed && LatestIsIn(logs, ByCode(r.uniqueCode)) :: r.uniqueCode
  }
}
