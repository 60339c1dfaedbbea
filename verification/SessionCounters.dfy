/**
  From cumulative to differential traffic counters: the session table of
  contrail-collector/structured_syslog_config.cc and the part of StructuredSyslogUVESummarizeData in
  contrail-collector/structured_syslog_server.cc that turns the counters of each message into the
  difference to the previous ones.
 */
module SessionCounters {
  import opened Options

  type SessionKey = string

  /** The five counters of a message. */
  datatype Counters = Counters(
    totalBytes: int,
    bytesFromClient: int,
    bytesFromServer: int,
    packetsFromServer: int,
    packetsFromClient: int)
  {
    function Plus(c: Counters): Counters {
      Counters(totalBytes + c.totalBytes, bytesFromClient + c.bytesFromClient, bytesFromServer + c.bytesFromServer,
               packetsFromServer + c.packetsFromServer, packetsFromClient + c.packetsFromClient)
    }

    function Minus(c: Counters): Counters {
      Counters(totalBytes - c.totalBytes, bytesFromClient - c.bytesFromClient, bytesFromServer - c.bytesFromServer,
               packetsFromServer - c.packetsFromServer, packetsFromClient - c.packetsFromClient)
    }
  }

  const ZERO := Counters(0, 0, 0, 0, 0)

  datatype Tag = SessionClose | VolUpdate | NexthopChange

  /** One message; `vol` says that volume updates are processed for its site. */
  datatype Message = Message(session: SessionKey, tag: Tag, vol: bool, counters: Counters)

  type Table = map<SessionKey, Counters>

  function StoredFor(t: Table, k: SessionKey): Counters {
    if k in t then t[k] else ZERO
  }

  /** The message is older than what is stored; only two of the counters are looked at. */
  predicate Stale(t: Table, m: Message) {
    && m.session in t
    && (t[m.session].totalBytes > m.counters.totalBytes || t[m.session].packetsFromClient > m.counters.packetsFromClient)
  }

  class SessionTable {
    var sessions: Table
    const limit: nat

    constructor (limit: nat)
      ensures sessions == map[] && this.limit == limit
    {
      sessions := map[];
      this.limit := limit;
    }

    /** AddSyslogSessionCounter: a full table takes no new session. */
    method Add(k: SessionKey, c: Counters) returns (added: bool)
      modifies this
      ensures added <==> k in old(sessions) || |old(sessions)| < limit
      ensures sessions == if added then old(sessions)[k := c] else old(sessions)
    {
      if k !in sessions && |sessions| >= limit {
        return false;
      }
      sessions := sessions[k := c];
      return true;
    }

    method Remove(k: SessionKey) returns (removed: nat)
      modifies this
      ensures sessions == old(sessions) - {k} && removed == if k in old(sessions) then 1 else 0
    {
      removed := if k in sessions then 1 else 0;
      sessions := sessions - {k};
    }

    /** The counter part of StructuredSyslogUVESummarizeData; None when the message is dropped. */
    method Summarize(m: Message) returns (diff: Option<Counters>)
      modifies this
      ensures sessions == TableAfter(old(sessions), limit, m)
      ensures diff == Emission(old(sessions), limit, m)
    {
      if !m.vol && m.tag == VolUpdate {
        return None;
      }
      var isClose := m.tag == SessionClose;
      var prev, processCurrent := ZERO, true;
      if m.session in sessions {
        prev := sessions[m.session];
        if prev.totalBytes > m.counters.totalBytes || prev.packetsFromClient > m.counters.packetsFromClient {
          processCurrent := false;
        }
        if isClose {
          var _ := Remove(m.session);
        }
      }
      if !isClose && m.vol && processCurrent {
        var added := Add(m.session, m.counters);
        if !added {
          return None;
        }
      }
      if processCurrent {
        diff := Some(m.counters.Minus(prev));
      } else {
        diff := Some(ZERO);
      }
    }
  }

  // ----- One message, as functions

  /** The table has no room for the session. */
  predicate Refused(t: Table, limit: nat, m: Message) {
    m.tag != SessionClose && m.vol && m.session !in t && |t| >= limit
  }

  predicate Rejected(m: Message) {
    !m.vol && m.tag == VolUpdate
  }

  function Emission(t: Table, limit: nat, m: Message): Option<Counters> {
    if Rejected(m) || Refused(t, limit, m) then None
    else if Stale(t, m) then Some(ZERO)
    else Some(m.counters.Minus(StoredFor(t, m.session)))
  }

  function TableAfter(t: Table, limit: nat, m: Message): Table {
    if m.tag == SessionClose then t - {m.session}
    else if !m.vol || Refused(t, limit, m) || Stale(t, m) then t
    else t[m.session := m.counters]
  }

  // ----- Runs of messages of any sessions

  function TableOf(tr: seq<Message>, limit: nat): Table {
    if tr == [] then map[] else TableAfter(TableOf(tr[..|tr| - 1], limit), limit, tr[|tr| - 1])
  }

  /** What message `i` of the run emits; nothing counts as zero. */
  function EmittedAt(tr: seq<Message>, limit: nat, i: nat): Counters
    requires i < |tr|
  {
    OrZero(Emission(TableOf(tr[..i], limit), limit, tr[i]))
  }

  function OrZero(e: Option<Counters>): Counters {
    if e.Some? then e.value else ZERO
  }

  /** The sum of all that was emitted for session `k` since it was last closed. */
  function Total(tr: seq<Message>, limit: nat, k: SessionKey): Counters {
    if tr == [] then ZERO
    else
      var n := |tr| - 1;
      if tr[n].session != k then Total(tr[..n], limit, k)
      else if tr[n].tag == SessionClose then ZERO
      else Total(tr[..n], limit, k).Plus(EmittedAt(tr, limit, n))
  }

  /** A message whose counters are emitted but not stored. */
  predicate Leaks(m: Message) {
    m.tag == NexthopChange && !m.vol
  }

  /** The part of the total that came from such messages. */
  function Leaked(tr: seq<Message>, limit: nat, k: SessionKey): Counters {
    if tr == [] then ZERO
    else
      var n := |tr| - 1;
      if tr[n].session != k then Leaked(tr[..n], limit, k)
      else if tr[n].tag == SessionClose then ZERO
      else if Leaks(tr[n]) then Leaked(tr[..n], limit, k).Plus(EmittedAt(tr, limit, n))
      else Leaked(tr[..n], limit, k)
  }

  /**
    Conservation while the session is open: whatever other sessions do in between, and whatever was
    refused or stale, the emitted differences add up to the stored cumulative value and what leaked.
   */
  lemma {:induction false} OpenSessionsConserve(tr: seq<Message>, limit: nat, k: SessionKey)
    ensures Total(tr, limit, k) == StoredFor(TableOf(tr, limit), k).Plus(Leaked(tr, limit, k))
  {
    if tr != [] {
      var past, m := tr[..|tr| - 1], tr[|tr| - 1];
      OpenSessionsConserve(past, limit, k);
      LastMessage(tr, limit, k);
      if m.session == k {
        StepConserves(TableOf(past, limit), limit, m, Total(past, limit, k), Leaked(past, limit, k));
      } else {
        OthersUntouched(TableOf(past, limit), limit, m, k);
      }
    }
    PlusZero(Total(tr, limit, k));
  }

  lemma PlusZero(c: Counters)
    ensures c.Plus(ZERO) == c
  {
  }

  /** How the last message of a run enters the sums. */
  lemma LastMessage(tr: seq<Message>, limit: nat, k: SessionKey)
    requires tr != []
    ensures var past, m := tr[..|tr| - 1], tr[|tr| - 1];
            var t := TableOf(past, limit);
            var e, total, leaked := OrZero(Emission(t, limit, m)), Total(past, limit, k), Leaked(past, limit, k);
            && TableOf(tr, limit) == TableAfter(t, limit, m)
            && Total(tr, limit, k) ==
               (if m.session != k then total else if m.tag == SessionClose then ZERO else total.Plus(e))
            && Leaked(tr, limit, k) ==
               (if m.session != k then leaked else if m.tag == SessionClose then ZERO
                else if Leaks(m) then leaked.Plus(e) else leaked)
  {
  }

  lemma OthersUntouched(t: Table, limit: nat, m: Message, k: SessionKey)
    requires m.session != k
    ensures StoredFor(TableAfter(t, limit, m), k) == StoredFor(t, k)
  {
  }

  /** One message of the session: the stored value moves by what is emitted, unless that leaks. */
  lemma StepConserves(t: Table, limit: nat, m: Message, total: Counters, leaked: Counters)
    requires total == StoredFor(t, m.session).Plus(leaked)
    ensures var e, after := OrZero(Emission(t, limit, m)), StoredFor(TableAfter(t, limit, m), m.session);
            if m.tag == SessionClose then
              && after == ZERO
              && total.Plus(e) == (if Stale(t, m) then t[m.session] else m.counters).Plus(leaked)
            else
              total.Plus(e) == after.Plus(if Leaks(m) then leaked.Plus(e) else leaked)
  {
  }

  /**
    Conservation at the close: the total of the session is its last cumulative value, that of the
    close itself or, if the close is stale, that of the last update that was stored. Updates that
    found the table full take nothing away from it.
   */
  lemma ClosedSessionsConserve(tr: seq<Message>, limit: nat, close: Message)
    requires close.tag == SessionClose
    ensures var t, k := TableOf(tr, limit), close.session;
            Total(tr, limit, k).Plus(EmittedAt(tr + [close], limit, |tr|))
            == (if Stale(t, close) then t[k] else close.counters).Plus(Leaked(tr, limit, k))
  {
    OpenSessionsConserve(tr, limit, close.session);
    assert (tr + [close])[..|tr|] == tr;
    StepConserves(TableOf(tr, limit), limit, close, Total(tr, limit, close.session), Leaked(tr, limit, close.session));
  }

  /** Nothing leaks from sites that process volume updates. */
  lemma {:induction false} NoLeak(tr: seq<Message>, limit: nat, k: SessionKey)
    requires forall i :: 0 <= i < |tr| && tr[i].session == k ==> !Leaks(tr[i])
    ensures Leaked(tr, limit, k) == ZERO
  {
    if tr != [] {
      NoLeak(tr[..|tr| - 1], limit, k);
    }
  }

  /** Where they are not processed, a next-hop change is counted twice: once by itself and once by the close. */
  lemma NexthopChangeCountsTwice(limit: nat, c: Counters)
    ensures var change, close := Message("s", NexthopChange, false, c), Message("s", SessionClose, false, c);
            Total([change], limit, "s").Plus(EmittedAt([change, close], limit, 1)) == c.Plus(c)
  {
    var change, close := Message("s", NexthopChange, false, c), Message("s", SessionClose, false, c);
    assert [change][..0] == [] && [change, close] == [change] + [close];
    assert TableOf([], limit) == map[];
    assert TableOf([change], limit) == map[];
    assert EmittedAt([change], limit, 0) == c;
    ClosedSessionsConserve([change], limit, close);
    assert Leaked([change], limit, "s") == c;
  }

  /** The table never holds more sessions than its limit. */
  lemma {:induction false} LimitHolds(tr: seq<Message>, limit: nat)
    ensures |TableOf(tr, limit)| <= limit
  {
    if tr != [] {
      var before, m := TableOf(tr[..|tr| - 1], limit), tr[|tr| - 1];
      LimitHolds(tr[..|tr| - 1], limit);
      if m.session in before {
        assert before[m.session := m.counters].Keys == before.Keys;
        assert (before - {m.session}).Keys == before.Keys - {m.session};
      } else {
        assert before[m.session := m.counters].Keys == before.Keys + {m.session};
        assert before - {m.session} == before;
      }
    }
  }

  /** Without a next-hop change that leaks, the total at the close is exact. */
  lemma ExactTotal(tr: seq<Message>, limit: nat, close: Message)
    requires close.tag == SessionClose
    requires forall i :: 0 <= i < |tr| && tr[i].session == close.session ==> !Leaks(tr[i])
    ensures Total(tr, limit, close.session).Plus(EmittedAt(tr + [close], limit, |tr|))
         == if Stale(TableOf(tr, limit), close) then TableOf(tr, limit)[close.session] else close.counters
  {
    ClosedSessionsConserve(tr, limit, close);
    NoLeak(tr, limit, close.session);
  }

  /** The two counters that the staleness test looks at never go backwards in what is emitted. */
  lemma DifferencesNeverNegative(t: Table, limit: nat, m: Message)
    requires m.counters.totalBytes >= 0 && m.counters.packetsFromClient >= 0
    ensures OrZero(Emission(t, limit, m)).totalBytes >= 0 && OrZero(Emission(t, limit, m)).packetsFromClient >= 0
    ensures Stale(t, m) <==> m.session in t &&
                             var d := m.counters.Minus(t[m.session]); d.totalBytes < 0 || d.packetsFromClient < 0
  {
  }

  /** An update of a known session, or of a new one while there is room, is stored and brings the total up to its counters. */
  lemma UpdateIsTaken(tr: seq<Message>, limit: nat, m: Message)
    requires m.tag != SessionClose && m.vol
    requires m.session in TableOf(tr, limit) || |TableOf(tr, limit)| < limit
    requires m.session in TableOf(tr, limit) ==>
               var was := TableOf(tr, limit)[m.session];
               was.totalBytes <= m.counters.totalBytes && was.packetsFromClient <= m.counters.packetsFromClient
    ensures TableOf(tr + [m], limit) == TableOf(tr, limit)[m.session := m.counters]
    ensures Total(tr + [m], limit, m.session) == m.counters.Plus(Leaked(tr, limit, m.session))
  {
    assert (tr + [m])[..|tr|] == tr;
    OpenSessionsConserve(tr + [m], limit, m.session);
    LastMessage(tr + [m], limit, m.session);
  }

  /** Nothing is emitted exactly for a volume update of a site without them, and for a new session when the table is full. */
  lemma DroppedIff(t: Table, limit: nat, m: Message)
    ensures Emission(t, limit, m).None? <==>
            if m.vol then m.tag != SessionClose && m.session !in t && |t| >= limit else m.tag == VolUpdate
  {
  }

  /** A dropped message, or one older than what is stored, changes nothing but what a close removes. */
  lemma DroppedChangesNothing(t: Table, limit: nat, m: Message)
    requires Emission(t, limit, m).None? || Stale(t, m) || !m.vol
    ensures TableAfter(t, limit, m) == if m.tag == SessionClose then t - {m.session} else t
    ensures Stale(t, m) && Emission(t, limit, m).Some? ==> Emission(t, limit, m) == Some(ZERO)
  {
  }
}
