/**
  The turn-state provenance table: which account minted the blob a downstream session last
  received. Records live two hours; expired ones go when a query meets them and in a sweep
  every 256 writes.
 */
module CodexTurnState {
  import opened Wrappers
  import opened Text

  const TTL_MS: int := 2 * 60 * 60 * 1000
  const SWEEP_EVERY_WRITES: nat := 256

  datatype Origin = Origin(accountKey: string, expiresAt: int)

  /** The trimmed key, when there is one. */
  function NormalizeKey(key: Option<string>): Option<string> {
    if key.Some? && Trim(key.value) != "" then Some(Trim(key.value)) else None
  }

  /** The table's state, as a value. */
  datatype Table = Table(origins: map<string, Origin>, writes: nat)

  const EmptyTable := Table(map[], 0)

  function Live(origins: map<string, Origin>, now: int): map<string, Origin> {
    map k | k in origins && now < origins[k].expiresAt :: origins[k]
  }

  function AfterNote(t: Table, session: Option<string>, account: Option<string>, now: int): Table {
    match (NormalizeKey(session), NormalizeKey(account))
    case (Some(s), Some(a)) =>
      var origins, writes := t.origins[s := Origin(a, now + TTL_MS)], t.writes + 1;
      Table(if writes % SWEEP_EVERY_WRITES == 0 then Live(origins, now) else origins, writes)
    case _ => t
  }

  function AfterQuery(t: Table, session: Option<string>, account: Option<string>, now: int): Table {
    match (NormalizeKey(session), NormalizeKey(account))
    case (Some(s), Some(_)) =>
      if s in t.origins && t.origins[s].expiresAt <= now then t.(origins := t.origins - {s}) else t
    case _ => t
  }

  predicate Answer(t: Table, session: Option<string>, account: Option<string>, now: int) {
    match (NormalizeKey(session), NormalizeKey(account))
    case (Some(s), Some(a)) => s in t.origins && now < t.origins[s].expiresAt && t.origins[s].accountKey != a
    case _ => false
  }

  class TurnStateTable {
    var turnStateOrigins: map<string, Origin>
    var turnStateWrites: nat

    constructor ()
      ensures Contents() == EmptyTable
    {
      turnStateOrigins, turnStateWrites := map[], 0;
    }

    function Contents(): Table
      reads this
    {
      Table(turnStateOrigins, turnStateWrites)
    }

    method SweepExpired(now: int)
      modifies this`turnStateOrigins
      ensures turnStateOrigins == Live(old(turnStateOrigins), now)
    {
      var pending := turnStateOrigins.Keys;
      while pending != {}
        invariant turnStateOrigins ==
                  map k | k in old(turnStateOrigins) && (k in pending || now < old(turnStateOrigins)[k].expiresAt)
                        :: old(turnStateOrigins)[k]
        invariant pending <= old(turnStateOrigins).Keys
      {
        var key :| key in pending;
        if turnStateOrigins[key].expiresAt <= now {
          turnStateOrigins := turnStateOrigins - {key};
        }
        pending := pending - {key};
      }
    }

    method NoteProvenance(clientSessionId: Option<string>, accountKey: Option<string>, now: int)
      modifies this
      ensures Contents() == AfterNote(old(Contents()), clientSessionId, accountKey, now)
    {
      var session, account := NormalizeKey(clientSessionId), NormalizeKey(accountKey);
      if session == None || account == None {
        return;
      }
      turnStateOrigins := turnStateOrigins[session.value := Origin(account.value, now + TTL_MS)];
      turnStateWrites := turnStateWrites + 1;
      if turnStateWrites % SWEEP_EVERY_WRITES == 0 {
        SweepExpired(now);
      }
    }

    method IsCrossAccount(clientSessionId: Option<string>, accountKey: Option<string>, now: int) returns (strip: bool)
      modifies this
      ensures strip == Answer(old(Contents()), clientSessionId, accountKey, now)
      ensures Contents() == AfterQuery(old(Contents()), clientSessionId, accountKey, now)
    {
      var session, account := NormalizeKey(clientSessionId), NormalizeKey(accountKey);
      if session == None || account == None {
        return false;
      }
      if session.value !in turnStateOrigins {
        return false;
      }
      var origin := turnStateOrigins[session.value];
      if origin.expiresAt <= now {
        turnStateOrigins := turnStateOrigins - {session.value};
        return false;
      }
      return origin.accountKey != account.value;
    }
  }
}
