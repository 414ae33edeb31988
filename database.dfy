/** The persistence store shared by the scan and request handlers: the
    request, visitor and visitor-log tables, the queries the handlers make on
    them, and the ledger invariant every handler keeps. */
module Database {
  import opened Seqs
  import opened Records

  /** The whole store as a value. `nextSession` is the next never-used session id. */
  datatype Db = Db(
    requests: seq<Request>,
    visitors: seq<Visitor>,
    logs: seq<VisitorLog>,
    nextSession: SessionId)

  /** The two ways the handlers select log rows: by `visitor_id` or by `unique_code`. */
  datatype LogKey = ByVisitor(visitorId: nat) | ByCode(code: string)

  predicate Matches(e: VisitorLog, key: LogKey)
  {
    match key
    case ByVisitor(v) => e.visitorId == v
    case ByCode(c) => e.uniqueCode == c
  }

  /** `VisitorLog.query.filter_by(key).order_by(VisitorLog.timestamp.desc()).first()`:
      entries are appended in timestamp order, so the newest is the last match. */
  function Latest(logs: seq<VisitorLog>, key: LogKey): (r: Option<nat>)
    ensures r.Some? ==> r.value < |logs| && Matches(logs[r.value], key)
    ensures r.Some? ==> forall j :: r.value < j < |logs| ==> !Matches(logs[j], key)
    ensures r.None? ==> forall j :: 0 <= j < |logs| ==> !Matches(logs[j], key)
  {
    FindLast(logs, (e: VisitorLog) => Matches(e, key))
  }

  /** Appending an entry makes it the newest for its keys and leaves other keys alone. */
  lemma LatestAppend(logs: seq<VisitorLog>, e: VisitorLog, key: LogKey)
    ensures Latest(logs + [e], key) == if Matches(e, key) then Some(|logs|) else Latest(logs, key)
  {
    FindLastAppend(logs, e, (x: VisitorLog) => Matches(x, key));
  }

  /** True when the newest entry for `key` exists and is a check-in. */
  predicate LatestIsIn(logs: seq<VisitorLog>, key: LogKey)
  {
    var k := Latest(logs, key);
    k.Some? && logs[k.value].status == CheckedIn
  }

  /** `Visitor.query.filter_by(name=..., number=...).first()`. */
  function FindVisitor(visitors: seq<Visitor>, name: string, number: string): (r: Option<nat>)
    ensures r.Some? ==> r.value < |visitors| && visitors[r.value].name == name && visitors[r.value].number == number
    ensures r.None? ==> forall j :: 0 <= j < |visitors| ==> !(visitors[j].name == name && visitors[j].number == number)
  {
    FindFirst(visitors, (v: Visitor) => v.name == name && v.number == number)
  }

  /** Adding a visitor keeps the first match of every earlier name and number. */
  lemma FindVisitorAppend(visitors: seq<Visitor>, v: Visitor, name: string, number: string)
    ensures FindVisitor(visitors + [v], name, number) ==
            if FindVisitor(visitors, name, number).Some? then FindVisitor(visitors, name, number)
            else if v.name == name && v.number == number then Some(|visitors|) else None
  {
    FindFirstAppend(visitors, v, (x: Visitor) => x.name == name && x.number == number);
  }

  /** The set of request codes in use (`Request.unique_code`). */
  function Codes(requests: seq<Request>): set<string>
  {
    set r | r in requests :: r.uniqueCode
  }

  /** The `unique=True` constraint on `Request.unique_code`. */
  predicate CodesUnique(requests: seq<Request>)
  {
    forall i, j :: 0 <= i < j < |requests| ==> requests[i].uniqueCode != requests[j].uniqueCode
  }

  /** Some earlier check-in of the same visitor opened the session entry `j` belongs to. */
  ghost predicate OpenedBefore(logs: seq<VisitorLog>, j: nat)
    requires j < |logs|
  {
    exists i :: 0 <= i < j && logs[i].status == CheckedIn &&
      logs[i].sessionId == logs[j].sessionId && logs[i].visitorId == logs[j].visitorId
  }

  /** The ledger invariant: every session id was issued (is below `next`); within one
      session there is at most one check-in and at most one check-out, and a check-out
      comes after a check-in of the same visitor in the same session. */
  ghost predicate SessionsWellFormed(logs: seq<VisitorLog>, next: SessionId)
  {
    && (forall i :: 0 <= i < |logs| ==> logs[i].sessionId < next)
    && (forall i, j :: 0 <= i < j < |logs| && logs[i].status == CheckedIn && logs[j].status == CheckedIn ==>
          logs[i].sessionId != logs[j].sessionId)
    && (forall i, j :: 0 <= i < j < |logs| && logs[i].status == CheckedOut && logs[j].status == CheckedOut ==>
          logs[i].sessionId != logs[j].sessionId)
    && (forall j :: 0 <= j < |logs| && logs[j].status == CheckedOut ==> OpenedBefore(logs, j))
  }

  ghost predicate DbValid(db: Db)
  {
    SessionsWellFormed(db.logs, db.nextSession) && CodesUnique(db.requests)
  }

  /** Appending a check-in under the next unused session id keeps the ledger invariant. */
  lemma AppendCheckInKeeps(logs: seq<VisitorLog>, next: SessionId, e: VisitorLog)
    requires SessionsWellFormed(logs, next)
    requires e.status == CheckedIn && e.sessionId == next
    ensures SessionsWellFormed(logs + [e], next + 1)
  {
    var l := logs + [e];
    forall i, j | 0 <= i < j < |l| && l[i].status == CheckedIn && l[j].status == CheckedIn
      ensures l[i].sessionId != l[j].sessionId
    {
      assert l[i] == logs[i];
      if j < |logs| {
        assert l[j] == logs[j];
      }
    }
    forall j | 0 <= j < |l| && l[j].status == CheckedOut ensures OpenedBefore(l, j) {
      assert j < |logs| && OpenedBefore(logs, j);
      var i :| 0 <= i < j && logs[i].status == CheckedIn &&
        logs[i].sessionId == logs[j].sessionId && logs[i].visitorId == logs[j].visitorId;
      assert l[i] == logs[i];
    }
  }

  /** The session of a visitor's newest entry, when that entry is a check-in, has no
      check-out yet. */
  lemma LatestSessionOpen(logs: seq<VisitorLog>, next: SessionId, v: nat)
    requires SessionsWellFormed(logs, next)
    requires LatestIsIn(logs, ByVisitor(v))
    ensures var k := Latest(logs, ByVisitor(v)).value;
      forall i :: 0 <= i < |logs| && logs[i].status == CheckedOut ==> logs[i].sessionId != logs[k].sessionId
  {
    var k := Latest(logs, ByVisitor(v)).value;
    forall i | 0 <= i < |logs| && logs[i].status == CheckedOut
      ensures logs[i].sessionId != logs[k].sessionId
    {
      assert OpenedBefore(logs, i);
      var h :| 0 <= h < i && logs[h].status == CheckedIn &&
        logs[h].sessionId == logs[i].sessionId && logs[h].visitorId == logs[i].visitorId;
      assert h != k;
    }
  }

  /** Appending a check-out of visitor `v` that reuses the session of v's newest entry,
      itself a check-in, keeps the ledger invariant. */
  lemma AppendCheckOutKeeps(logs: seq<VisitorLog>, next: SessionId, e: VisitorLog)
    requires SessionsWellFormed(logs, next)
    requires LatestIsIn(logs, ByVisitor(e.visitorId))
    requires e.status == CheckedOut
    requires e.sessionId == logs[Latest(logs, ByVisitor(e.visitorId)).value].sessionId
    ensures SessionsWellFormed(logs + [e], next)
  {
    var k := Latest(logs, ByVisitor(e.visitorId)).value;
    LatestSessionOpen(logs, next, e.visitorId);
    var l := logs + [e];
    forall j | 0 <= j < |l| && l[j].status == CheckedOut ensures OpenedBefore(l, j) {
      if j == |logs| {
        assert l[k] == logs[k];
      } else {
        assert OpenedBefore(logs, j);
        var i :| 0 <= i < j && logs[i].status == CheckedIn &&
          logs[i].sessionId == logs[j].sessionId && logs[i].visitorId == logs[j].visitorId;
        assert l[i] == logs[i];
      }
    }
  }

  /** Adding requests whose codes are pairwise distinct and not yet in use keeps codes unique. */
  lemma AppendFreshCodes(requests: seq<Request>, added: seq<Request>)
    requires CodesUnique(requests) && CodesUnique(added)
    requires forall k :: 0 <= k < |added| ==> added[k].uniqueCode !in Codes(requests)
    ensures CodesUnique(requests + added)
  {
    var all := requests + added;
    forall i, j | 0 <= i < j < |all| ensures all[i].uniqueCode != all[j].uniqueCode {
      if i < |requests| <= j {
        assert requests[i] in requests;
        assert all[j] == added[j - |requests|];
      } else if |requests| <= i {
        assert all[i] == added[i - |requests|] && all[j] == added[j - |requests|];
      }
    }
  }

  /** The store as the handlers see it through the ORM session. */
  class Store {
    var requests: seq<Request>
    var visitors: seq<Visitor>
    var logs: seq<VisitorLog>
    var nextSession: SessionId

    ghost predicate Valid()
      reads this
    {
      DbValid(State())
    }

    function State(): Db
      reads this
    {
      Db(requests, visitors, logs, nextSession)
    }

    constructor ()
      ensures Valid()
      ensures State() == Db([], [], [], 0)
    {
      requests, visitors, logs, nextSession := [], [], [], 0;
    }

    /** `db.session.add(visitor)`; the new visitor's id is its position. */
    method AddVisitor(v: Visitor) returns (id: nat)
      modifies this
      ensures id == |old(visitors)|
      ensures State() == old(State()).(visitors := old(visitors) + [v])
    {
      id := |visitors|;
      visitors := visitors + [v];
    }

    /** Overwrites the visitor row `id` in place. */
    method SetVisitor(id: nat, v: Visitor)
      requires id < |visitors|
      modifies this
      ensures State() == old(State()).(visitors := old(visitors)[id := v])
    {
      visitors := visitors[id := v];
    }

    /** `db.session.add(new_log)`. */
    method AddLog(e: VisitorLog)
      modifies this
      ensures State() == old(State()).(logs := old(logs) + [e])
    {
      logs := logs + [e];
    }

    /** `db.session.add(new_request)`. */
    method AddRequest(r: Request)
      modifies this
      ensures State() == old(State()).(requests := old(requests) + [r])
    {
      requests := requests + [r];
    }

    /** `db.session.add_all(rs)`. */
    method AddRequests(rs: seq<Request>)
      modifies this
      ensures State() == old(State()).(requests := old(requests) + rs)
    {
      requests := requests + rs;
    }

    /** Overwrites the request row at position `i` in place. */
    method SetRequest(i: nat, r: Request)
      requires i < |requests|
      modifies this
      ensures State() == old(State()).(requests := old(requests)[i := r])
    {
      requests := requests[i := r];
    }

    /** `str(uuid.uuid4())`: a session id never issued before. */
    method NewSessionId() returns (s: SessionId)
      modifies this
      ensures s == old(nextSession)
      ensures State() == old(State()).(nextSession := s + 1)
    {
      s := nextSession;
      nextSession := nextSession + 1;
    }
  }
}
