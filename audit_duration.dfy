// Working time of an audit: the settle step that books elapsed time, the
// state change that triggers it, and the live read of the duration.
// Instants are whole seconds since a fixed origin; durations are real days.

module AuditDuration {
  import opened Common

  const EnCours: string := "En cours"
  const Suspendu: string := "Suspendu"
  const Termine: string := "Terminé"
  const SecondsPerDay: int := 86400

  /** The time-keeping fields of an audit record. */
  datatype AuditState = AuditState(etat: string, startTime: Option<int>, totalDuration: real,
                                   lastPauseTime: Option<int>)

  /** Days between two instants (negative when `to` is before `from`). */
  function Days(from: int, to: int): (d: real)
    ensures from <= to ==> d >= 0.0
    ensures d * SecondsPerDay as real == (to - from) as real
  {
    (to - from) as real / SecondsPerDay as real
  }

  lemma DaysSplit(a: int, b: int, c: int)
    ensures Days(a, b) + Days(b, c) == Days(a, c)
  {
    assert (Days(a, b) + Days(b, c)) * SecondsPerDay as real == (c - a) as real;
  }

  lemma DaysZero(a: int)
    ensures Days(a, a) == 0.0
  {
  }

  /** A paused or finished audit: time booked on it stops. */
  predicate Stopped(etat: string)
  {
    etat == Suspendu || etat == Termine
  }

  /** `update_audit_duration` at instant `now`, as a function of the record. */
  function Settle(s: AuditState, now: int): AuditState
  {
    if s.etat == EnCours && s.startTime.Some? then
      s.(totalDuration := s.totalDuration + Days(s.startTime.value, now), startTime := Some(now))
    else if Stopped(s.etat) && s.startTime.Some? then
      s.(totalDuration := s.totalDuration + Days(s.startTime.value, now), startTime := None,
         lastPauseTime := Some(now))
    else s
  }

  /** The duration the route reports at `now`, before rounding to two places. */
  function Live(s: AuditState, now: int): real
  {
    s.totalDuration + if s.etat == EnCours && s.startTime.Some? then Days(s.startTime.value, now) else 0.0
  }

  /** While running, settling books the time since the start and restarts the clock; nothing else moves. */
  lemma SettleRunning(s: AuditState, now: int)
    requires s.etat == EnCours && s.startTime.Some?
    ensures var r := Settle(s, now);
      && r.totalDuration == s.totalDuration + Days(s.startTime.value, now)
      && r.startTime == Some(now)
      && r.etat == s.etat && r.lastPauseTime == s.lastPauseTime
  {
  }

  /** A suspended or finished audit with an armed clock books the elapsed time, disarms and records the pause. */
  lemma SettleStopped(s: AuditState, now: int)
    requires Stopped(s.etat) && s.startTime.Some?
    ensures var r := Settle(s, now);
      && r.totalDuration == s.totalDuration + Days(s.startTime.value, now)
      && r.startTime.None? && r.lastPauseTime == Some(now) && r.etat == s.etat
  {
  }

  /** Without an armed clock, or in any other state, settling changes nothing. */
  lemma SettleNoOp(s: AuditState, now: int)
    requires s.startTime.None? || (s.etat != EnCours && !Stopped(s.etat))
    ensures Settle(s, now) == s
  {
  }

  /** While running, settling at `t1` then at `t2` books the same total as settling once at `t2`. */
  lemma SettleSplit(s: AuditState, t1: int, t2: int)
    requires s.etat == EnCours && s.startTime.Some?
    ensures Settle(Settle(s, t1), t2) == Settle(s, t2)
  {
    DaysSplit(s.startTime.value, t1, t2);
  }

  /** Settling twice at the same instant adds nothing the second time, in every state. */
  lemma SettleIdempotent(s: AuditState, now: int)
    ensures Settle(Settle(s, now), now) == Settle(s, now)
  {
    DaysZero(now);
  }

  /** The booked total never decreases when the clock was started no later than `now`. */
  lemma SettleMonotonic(s: AuditState, now: int)
    requires s.startTime.Some? ==> s.startTime.value <= now
    ensures Settle(s, now).totalDuration >= s.totalDuration
  {
  }

  /** The live reading is at least the booked total when the clock was started no later than `now`. */
  lemma LiveAtLeastTotal(s: AuditState, now: int)
    requires s.startTime.Some? ==> s.startTime.value <= now
    ensures Live(s, now) >= s.totalDuration
  {
  }

  /** While running, an intermediate settle does not change what the route reports. */
  lemma LiveUnchangedBySettle(s: AuditState, t: int, now: int)
    requires s.etat == EnCours
    ensures Live(Settle(s, t), now) == Live(s, now)
  {
    if s.startTime.Some? {
      DaysSplit(s.startTime.value, t, now);
    }
  }

  /** `change_audit_etat` as written: settle under the old state, then store the new state verbatim. */
  function ChangeEtat(s: AuditState, newEtat: string, now: int): (r: AuditState)
    ensures r.etat == newEtat
    ensures r.totalDuration == Settle(s, now).totalDuration
  {
    Settle(s, now).(etat := newEtat)
  }

  /** Suspending a running audit leaves its clock armed at the suspension instant. */
  lemma SuspendKeepsClockArmed(s: AuditState, now: int)
    requires s.etat == EnCours && s.startTime.Some?
    ensures ChangeEtat(s, Suspendu, now).startTime == Some(now)
  {
  }

  /** Entering "En cours" never arms a clock that is not already armed. */
  lemma ResumeDoesNotRearm(s: AuditState, now: int)
    requires s.startTime.None?
    ensures ChangeEtat(s, EnCours, now).startTime.None?
  {
  }

  /** The audit row whose time-keeping fields the service updates in place. */
  class Audit {
    const id: nat
    var etat: string
    var startTime: Option<int>
    var totalDuration: real
    var lastPauseTime: Option<int>

    function State(): AuditState
      reads this
    {
      AuditState(etat, startTime, totalDuration, lastPauseTime)
    }

    constructor (id: nat, s: AuditState)
      ensures this.id == id && State() == s
    {
      this.id := id;
      etat := s.etat;
      startTime := s.startTime;
      totalDuration := s.totalDuration;
      lastPauseTime := s.lastPauseTime;
    }

    /** `update_audit_duration(audit)` with the clock reading `now`. */
    method UpdateAuditDuration(now: int)
      modifies this
      ensures State() == Settle(old(State()), now)
    {
      if etat == EnCours {
        if startTime.Some? {
          var elapsedSeconds := now - startTime.value;
          totalDuration := totalDuration + elapsedSeconds as real / SecondsPerDay as real;
          startTime := Some(now);
        }
      } else if etat == Suspendu || etat == Termine {
        if startTime.Some? {
          var elapsedSeconds := now - startTime.value;
          totalDuration := totalDuration + elapsedSeconds as real / SecondsPerDay as real;
          startTime := None;
          lastPauseTime := Some(now);
        }
      }
    }
  }

  /** `change_audit_etat`: look the audit up, settle its time, then overwrite its state. */
  method ChangeAuditEtat(audits: map<nat, Audit>, id: nat, newEtat: string, now: int) returns (r: Option<Audit>)
    modifies if id in audits then {audits[id]} else {}
    ensures id !in audits ==> r.None?
    ensures id in audits ==> r == Some(audits[id]) && audits[id].State() == ChangeEtat(old(audits[id].State()), newEtat, now)
  {
    if id !in audits {
      return None;
    }
    var audit := audits[id];
    audit.UpdateAuditDuration(now);
    audit.etat := newEtat;
    r := Some(audit);
  }

  /** `get_audit_duration`: the live reading of one audit, or not found. */
  function GetAuditDuration(audits: map<nat, Audit>, id: nat, now: int): (r: Option<real>)
    reads audits.Values
    ensures r.None? <==> id !in audits
    ensures r.Some? ==> r.value == Live(audits[id].State(), now)
  {
    if id in audits then Some(Live(audits[id].State(), now)) else None
  }

  /** One state change requested at an instant. */
  datatype Change = Change(etat: string, at: int)

  /** The intended reading: the days spent in "En cours" from `from` up to `now`, across the changes. */
  function Worked(etat: string, from: int, changes: seq<Change>, now: int): real
    decreases |changes|
  {
    var until := if changes == [] then now else changes[0].at;
    var here := if etat == EnCours then Days(from, until) else 0.0;
    if changes == [] then here else here + Worked(changes[0].etat, changes[0].at, changes[1..], now)
  }

  /**
   * The state change with the clock handled as intended: entering "En cours"
   * arms the clock at `now`, any other state leaves it disarmed.
   */
  function ChangeEtatRearmed(s: AuditState, newEtat: string, now: int): (r: AuditState)
    ensures r.etat == newEtat
    ensures r.totalDuration == Settle(s, now).totalDuration
    ensures r.startTime == if newEtat == EnCours then Some(now) else None
  {
    var settled := Settle(s, now);
    var paused := if newEtat != EnCours && s.startTime.Some? then Some(now) else settled.lastPauseTime;
    settled.(etat := newEtat, startTime := if newEtat == EnCours then Some(now) else None, lastPauseTime := paused)
  }

  function Replay(s: AuditState, changes: seq<Change>): AuditState
    decreases |changes|
  {
    if changes == [] then s else Replay(ChangeEtatRearmed(s, changes[0].etat, changes[0].at), changes[1..])
  }

  function ReplayAsWritten(s: AuditState, changes: seq<Change>): AuditState
    decreases |changes|
  {
    if changes == [] then s else ReplayAsWritten(ChangeEtat(s, changes[0].etat, changes[0].at), changes[1..])
  }

  /** The clock is armed at `from` exactly when the audit is running. */
  predicate ArmedAt(s: AuditState, from: int)
  {
    s.startTime == if s.etat == EnCours then Some(from) else None
  }

  /**
   * With the corrected state change, the reported duration after any sequence of
   * changes is the booked total plus exactly the time spent running.
   */
  lemma {:induction false} ReplayReportsWorkedTime(s: AuditState, from: int, changes: seq<Change>, now: int)
    requires ArmedAt(s, from)
    ensures Live(Replay(s, changes), now) == s.totalDuration + Worked(s.etat, from, changes, now)
    decreases |changes|
  {
    if changes != [] {
      var c := changes[0];
      var next := ChangeEtatRearmed(s, c.etat, c.at);
      assert next.totalDuration == s.totalDuration + (if s.etat == EnCours then Days(from, c.at) else 0.0);
      assert ArmedAt(next, c.at);
      ReplayReportsWorkedTime(next, c.at, changes[1..], now);
    }
  }

  /**
   * As written, suspending for two days and resuming counts the suspension and
   * then stops the clock: a day of work, two days suspended and a day of work
   * report three days instead of two.
   */
  lemma SuspendResumeCountsPause()
    ensures var s := AuditState(EnCours, Some(0), 0.0, None);
      var changes := [Change(Suspendu, SecondsPerDay), Change(EnCours, 3 * SecondsPerDay)];
      && Live(ReplayAsWritten(s, changes), 4 * SecondsPerDay) == 3.0
      && Worked(EnCours, 0, changes, 4 * SecondsPerDay) == 2.0
      && Live(Replay(s, changes), 4 * SecondsPerDay) == 2.0
  {
    var s := AuditState(EnCours, Some(0), 0.0, None);
    var changes := [Change(Suspendu, SecondsPerDay), Change(EnCours, 3 * SecondsPerDay)];
    var s1 := ChangeEtat(s, Suspendu, SecondsPerDay);
    assert s1 == AuditState(Suspendu, Some(SecondsPerDay), 1.0, None);
    var s2 := ChangeEtat(s1, EnCours, 3 * SecondsPerDay);
    assert s2 == AuditState(EnCours, None, 3.0, Some(3 * SecondsPerDay));
    var rest := changes[1..];
    assert rest == [Change(EnCours, 3 * SecondsPerDay)] && rest[1..] == [];
    assert ReplayAsWritten(s1, rest) == ReplayAsWritten(s2, []) == s2;
    assert ReplayAsWritten(s, changes) == s2;
    assert Worked(EnCours, 3 * SecondsPerDay, [], 4 * SecondsPerDay) == 1.0;
    assert Worked(Suspendu, SecondsPerDay, rest, 4 * SecondsPerDay) == 1.0;
    assert Worked(EnCours, 0, changes, 4 * SecondsPerDay) == 1.0 + 1.0;
    ReplayReportsWorkedTime(s, 0, changes, 4 * SecondsPerDay);
  }
}
