/**
  The provenance table answers like a record that never forgets: lazy deletion and sweeps are
  unobservable as long as the clock does not run backwards, and the table stays small.
 */
module TurnStateRefinement {
  import opened Wrappers
  import opened Text
  import opened CodexTurnState
  import opened Sets

  datatype Call =
    | Note(session: Option<string>, account: Option<string>, now: int)
    | Query(session: Option<string>, account: Option<string>, now: int)

  /** A key counts exactly when it wraps something in blanks: that is the name it goes by. */
  lemma NormalizeKeyMeaning(key: Option<string>, name: string)
    ensures NormalizeKey(key) == Some(name) <==> key.Some? && name != "" && Trimmed(name) && Wraps(key.value, name)
  {
    if key.Some? {
      TrimMeaning(key.value, name);
    }
  }

  /** The call is not ignored for want of a session or an account. */
  ghost predicate Effective(c: Call) {
    NormalizeKey(c.session).Some? && NormalizeKey(c.account).Some?
  }

  ghost predicate Mints(c: Call, s: string) {
    c.Note? && Effective(c) && NormalizeKey(c.session) == Some(s)
  }

  ghost function After(t: Table, c: Call): Table {
    match c
    case Note(session, account, now) => AfterNote(t, session, account, now)
    case Query(session, account, now) => AfterQuery(t, session, account, now)
  }

  ghost function TableAfter(h: seq<Call>): Table {
    if h == [] then EmptyTable else After(TableAfter(h[..|h| - 1]), h[|h| - 1])
  }

  // ---------------------------------------------------------------- the table that never forgets

  /** The latest note for session s: who minted, and when. */
  ghost function LatestNote(h: seq<Call>, s: string): (r: Option<Call>)
    ensures r.Some? ==> Mints(r.value, s)
  {
    if h == [] then None
    else if Mints(h[|h| - 1], s) then Some(h[|h| - 1])
    else LatestNote(h[..|h| - 1], s)
  }

  ghost function Expiry(c: Call): int {
    c.now + 7_200_000
  }

  /** The latest note for the session is younger than the TTL and names a different account. */
  ghost predicate Expected(h: seq<Call>, session: Option<string>, account: Option<string>, now: int) {
    match (NormalizeKey(session), NormalizeKey(account))
    case (Some(s), Some(a)) =>
      LatestNote(h, s).Some? && now < Expiry(LatestNote(h, s).value) &&
      NormalizeKey(LatestNote(h, s).value.account) != Some(a)
    case _ => false
  }

  ghost function Writes(h: seq<Call>): nat {
    if h == [] then 0
    else Writes(h[..|h| - 1]) + if h[|h| - 1].Note? && Effective(h[|h| - 1]) then 1 else 0
  }

  /** The last call of h ran the sweep. */
  ghost predicate Sweeps(h: seq<Call>) {
    h != [] && h[|h| - 1].Note? && Effective(h[|h| - 1]) && Writes(h) % 256 == 0
  }

  /** Some call since the latest note of s looked at its record at a time when it had expired. */
  ghost predicate Dropped(h: seq<Call>, s: string) {
    if h == [] || Mints(h[|h| - 1], s) then false
    else
      var front, c := h[..|h| - 1], h[|h| - 1];
      Dropped(front, s) ||
      (LatestNote(front, s).Some? && Expiry(LatestNote(front, s).value) <= c.now &&
       (Sweeps(h) || (c.Query? && Effective(c) && NormalizeKey(c.session) == Some(s))))
  }

  lemma {:induction false} WritesCounted(h: seq<Call>)
    ensures TableAfter(h).writes == Writes(h)
  {
    if h != [] {
      WritesCounted(h[..|h| - 1]);
    }
  }

  /** What the table holds for a session, under any clock whatever. */
  lemma {:induction false} RecordFor(h: seq<Call>, s: string)
    ensures s in TableAfter(h).origins <==> LatestNote(h, s).Some? && !Dropped(h, s)
    ensures s in TableAfter(h).origins ==>
              var note, origin := LatestNote(h, s).value, TableAfter(h).origins[s];
              NormalizeKey(note.account) == Some(origin.accountKey) && origin.expiresAt == Expiry(note)
  {
    if h != [] {
      RecordFor(h[..|h| - 1], s);
      WritesCounted(h[..|h| - 1]);
    }
  }

  /** Under any clock the guard strips exactly when it should and the record had not been dropped. */
  lemma AnswerUnderAnyClock(h: seq<Call>, session: Option<string>, account: Option<string>, now: int)
    ensures Answer(TableAfter(h), session, account, now) <==>
            Expected(h, session, account, now) && !Dropped(h, NormalizeKey(session).value)
  {
    if NormalizeKey(session).Some? {
      RecordFor(h, NormalizeKey(session).value);
    }
  }

  // ---------------------------------------------------------------- non-decreasing clock

  ghost predicate ClockNeverRunsBack(h: seq<Call>) {
    forall i, j :: 0 <= i < j < |h| ==> h[i].now <= h[j].now
  }

  lemma {:induction false} DroppedMeansExpired(h: seq<Call>, s: string)
    requires ClockNeverRunsBack(h) && Dropped(h, s)
    ensures LatestNote(h, s).Some? && Expiry(LatestNote(h, s).value) <= h[|h| - 1].now
  {
    var front := h[..|h| - 1];
    if Dropped(front, s) {
      DroppedMeansExpired(front, s);
    }
  }

  /** Refinement: with a clock that never runs back, every answer is the one of a table that never forgets. */
  lemma Refinement(h: seq<Call>, session: Option<string>, account: Option<string>, now: int)
    requires ClockNeverRunsBack(h + [Query(session, account, now)])
    ensures Answer(TableAfter(h), session, account, now) <==> Expected(h, session, account, now)
  {
    AnswerUnderAnyClock(h, session, account, now);
    if Expected(h, session, account, now) && Dropped(h, NormalizeKey(session).value) {
      var whole := h + [Query(session, account, now)];
      assert h == whole[..|h|] && whole[|h| - 1] == h[|h| - 1] && whole[|h|].now == now;
      DroppedMeansExpired(h, NormalizeKey(session).value);
      assert false;
    }
  }

  /** A clock set back can make the table forget what a never-forgetting one would still know. */
  lemma ClockSetBackIsObservable()
    ensures
      var s, a, b := Some("s"), Some("a"), Some("b");
      var h := [Note(s, a, 0), Query(s, b, 7_200_000)];
      Expected(h, s, b, 0) && !Answer(TableAfter(h), s, b, 0)
  {
    var s, a, b := Some("s"), Some("a"), Some("b");
    var h := [Note(s, a, 0), Query(s, b, 7_200_000)];
    assert NormalizeKey(s) == s && NormalizeKey(a) == a && NormalizeKey(b) == b;
    assert h[..1] == [Note(s, a, 0)] && h[..1][..0] == [];
    assert LatestNote(h[..1], "s") == Some(h[0]);
    assert Dropped(h, "s");
    AnswerUnderAnyClock(h, s, b, 0);
  }

  // ---------------------------------------------------------------- memory bound

  /** The run up to and including the last sweep; empty if none has happened. */
  ghost function UpToLastSweep(h: seq<Call>): (g: seq<Call>)
    ensures g <= h && (g != [] ==> Sweeps(g))
  {
    if h == [] || Sweeps(h) then h else UpToLastSweep(h[..|h| - 1])
  }

  /** The latest note of s is still live at the end of run g. */
  ghost predicate LiveIn(g: seq<Call>, s: string) {
    g != [] && LatestNote(g, s).Some? && g[|g| - 1].now < Expiry(LatestNote(g, s).value)
  }

  ghost function Sessions(g: seq<Call>): set<string> {
    set c | c in g && Effective(c) :: NormalizeKey(c.session).value
  }

  ghost function LiveSessions(g: seq<Call>): (r: set<string>)
    ensures forall s :: s in r <==> LiveIn(g, s)
  {
    forall s | LiveIn(g, s) ensures s in Sessions(g) {
      LatestNoteOccurs(g, s);
    }
    set s | s in Sessions(g) && LiveIn(g, s)
  }

  lemma {:induction false} LatestNoteOccurs(h: seq<Call>, s: string)
    requires LatestNote(h, s).Some?
    ensures LatestNote(h, s).value in h
  {
    if !Mints(h[|h| - 1], s) {
      LatestNoteOccurs(h[..|h| - 1], s);
    }
  }

  /** Right after a sweep the table holds exactly the live sessions' records, the one just noted included. */
  lemma SweepLeavesTheLiveSessions(h: seq<Call>)
    requires Sweeps(h)
    ensures TableAfter(h).origins.Keys <= LiveSessions(h)
    ensures ClockNeverRunsBack(h) ==> TableAfter(h).origins.Keys == LiveSessions(h)
    ensures NormalizeKey(h[|h| - 1].session).value in TableAfter(h).origins
  {
    var front, c := h[..|h| - 1], h[|h| - 1];
    WritesCounted(front);
    forall s
      ensures s in TableAfter(h).origins ==> LiveIn(h, s)
      ensures ClockNeverRunsBack(h) && LiveIn(h, s) ==> s in TableAfter(h).origins
    {
      RecordFor(h, s);
      if ClockNeverRunsBack(h) && Dropped(h, s) {
        DroppedMeansExpired(h, s);
      }
    }
    NoteSurvivesItsOwnSweep(TableAfter(front), c.session, c.account, c.now);
  }

  /** A note is never undone by the sweep it triggers. */
  lemma NoteSurvivesItsOwnSweep(t: Table, session: Option<string>, account: Option<string>, now: int)
    requires NormalizeKey(session).Some? && NormalizeKey(account).Some?
    ensures
      var origins := AfterNote(t, session, account, now).origins;
      var s := NormalizeKey(session).value;
      s in origins && origins[s] == Origin(NormalizeKey(account).value, now + 7_200_000)
  {
  }

  /**
    Memory bound: the table never holds more than the sessions live at the last sweep plus
    one per write since, and writes since a sweep are the writes modulo 256.
   */
  lemma {:induction false} SizeBound(h: seq<Call>)
    ensures |TableAfter(h).origins| <= |LiveSessions(UpToLastSweep(h))| + Writes(h) % 256
  {
    if Sweeps(h) {
      SweepLeavesTheLiveSessions(h);
      KeysBound(TableAfter(h).origins, LiveSessions(h));
    } else if h != [] {
      var front, c := h[..|h| - 1], h[|h| - 1];
      SizeBound(front);
      WritesCounted(front);
      assert UpToLastSweep(h) == UpToLastSweep(front);
      GrowsByAtMostOne(TableAfter(front), c);
      if c.Note? && Effective(c) {
        CounterStep(Writes(front));
      }
    }
  }

  lemma CounterStep(w: nat)
    requires (w + 1) % 256 != 0
    ensures (w + 1) % 256 == w % 256 + 1
  {
  }

  lemma KeysBound(m: map<string, Origin>, s: set<string>)
    requires m.Keys <= s
    ensures |m| <= |s|
  {
    SubsetCardinality(m.Keys, s);
  }

  lemma GrowsByAtMostOne(t: Table, c: Call)
    requires c.Note? && Effective(c) ==> (t.writes + 1) % 256 != 0
    ensures |After(t, c).origins| <= |t.origins| + if c.Note? && Effective(c) then 1 else 0
  {
    if Effective(c) {
      var s := NormalizeKey(c.session).value;
      if c.Note? {
        assert After(t, c).origins.Keys == t.origins.Keys + {s};
      } else {
        KeysBound(After(t, c).origins, t.origins.Keys);
      }
    }
  }

  /** With a clock that never runs back, everything held was noted less than a TTL before the last sweep, or since. */
  lemma {:induction false} HeldRecordsAreRecent(h: seq<Call>, s: string)
    requires ClockNeverRunsBack(h) && UpToLastSweep(h) != [] && s in TableAfter(h).origins
    ensures
      var g := UpToLastSweep(h);
      LatestNote(h, s).Some? && g[|g| - 1].now - 7_200_000 < LatestNote(h, s).value.now
  {
    RecordFor(h, s);
    if Sweeps(h) {
      SweepLeavesTheLiveSessions(h);
    } else {
      var front, c, g := h[..|h| - 1], h[|h| - 1], UpToLastSweep(h);
      if Mints(c, s) {
        assert g[|g| - 1] == h[|g| - 1];
      } else {
        RecordFor(front, s);
        HeldRecordsAreRecent(front, s);
      }
    }
  }
}
