/** CubeService.processEvent: the work sessions of a set of cubes. */
module CubeService {
  import opened Bytes

  const NANOS_PER_SECOND := 1_000_000_000

  /** An accepted or refused UDP event, with the two clock readings made while it is processed. */
  datatype Event = Event(cube: string, side: Option<int>, closing: int, opening: int)

  datatype WorkSession = WorkSession(cube: string, side: int, start: int, end: Option<int>, duration: Option<int>)

  datatype Outcome = Processed | CubeNotFound | NullSide

  // ---------- one event ----------

  /** calculateDuration runs when the session is saved. */
  function Closed(session: WorkSession, now: int): WorkSession {
    session.(end := Some(now), duration := Some((now - session.start) / NANOS_PER_SECOND))
  }

  function Opened(e: Event): WorkSession
    requires e.side.Some?
  {
    WorkSession(e.cube, e.side.value, e.opening, None, None)
  }

  predicate OpenOf(session: WorkSession, cube: string) {
    session.cube == cube && session.end.None?
  }

  /** What the query for the open session with the latest start may return; the database breaks ties as it likes. */
  predicate Newest(sessions: seq<WorkSession>, cube: string, chosen: Option<nat>) {
    match chosen
    case None => forall i :: 0 <= i < |sessions| ==> !OpenOf(sessions[i], cube)
    case Some(i) =>
      i < |sessions| && OpenOf(sessions[i], cube) &&
      forall j :: 0 <= j < |sessions| && OpenOf(sessions[j], cube) ==> sessions[j].start <= sessions[i].start
  }

  predicate Accepted(cubes: set<string>, e: Event) {
    e.cube in cubes && e.side.Some?
  }

  /** Step 2: the chosen session is closed unless its side is that of the event. */
  function AfterClosing(sessions: seq<WorkSession>, e: Event, chosen: Option<nat>): (r: seq<WorkSession>)
    requires chosen.Some? ==> chosen.value < |sessions|
    ensures |r| == |sessions|
  {
    if chosen.Some? && Some(sessions[chosen.value].side) != e.side then
      sessions[chosen.value := Closed(sessions[chosen.value], e.closing)]
    else
      sessions
  }

  /** The table after an event; an event that fails is rolled back. */
  function After(cubes: set<string>, sessions: seq<WorkSession>, e: Event, chosen: Option<nat>): seq<WorkSession>
    requires Accepted(cubes, e) ==> Newest(sessions, e.cube, chosen)
  {
    if !Accepted(cubes, e) then sessions
    else AfterClosing(sessions, e, chosen) + if e.side.value > 0 then [Opened(e)] else []
  }

  class CubeService {
    const cubes: set<string>
    var sessions: seq<WorkSession>

    constructor (cubes: set<string>)
      ensures this.cubes == cubes && sessions == []
    {
      this.cubes, sessions := cubes, [];
    }

    method FindOpen(cube: string) returns (chosen: Option<nat>)
      ensures Newest(sessions, cube, chosen)
    {
      chosen := None;
      for i := 0 to |sessions|
        invariant Newest(sessions[..i], cube, chosen)
      {
        if OpenOf(sessions[i], cube) && (chosen.None? || sessions[i].start > sessions[chosen.value].start) {
          chosen := Some(i);
        }
      }
    }

    /** processEvent. The `return` inside the lambda leaves only the closing step. */
    method ProcessEvent(e: Event) returns (outcome: Outcome, ghost chosen: Option<nat>)
      modifies this
      ensures outcome.Processed? <==> Accepted(cubes, e)
      ensures outcome.CubeNotFound? <==> e.cube !in cubes
      ensures Accepted(cubes, e) ==> Newest(old(sessions), e.cube, chosen)
      ensures sessions == After(cubes, old(sessions), e, chosen)
    {
      chosen := None;
      if e.cube !in cubes {
        return CubeNotFound, chosen;
      }
      var before := sessions;
      var found := FindOpen(e.cube);
      chosen := found;
      if found.Some? {
        var session := sessions[found.value];
        if Some(session.side) != e.side {
          sessions := sessions[found.value := Closed(session, e.closing)];
        }
      }
      if e.side.None? {
        sessions := before;
        return NullSide, chosen;
      }
      if e.side.value > 0 {
        sessions := sessions + [Opened(e)];
      }
      outcome := Processed;
    }
  }

  // ---------- runs ----------

  datatype Step = Step(event: Event, chosen: Option<nat>)

  /** The table after a run that starts with no sessions. */
  ghost function Run(cubes: set<string>, steps: seq<Step>): seq<WorkSession>
    requires Legal(cubes, steps)
    decreases |steps|, 1
  {
    if steps == [] then []
    else
      var last := steps[|steps| - 1];
      After(cubes, Run(cubes, steps[..|steps| - 1]), last.event, last.chosen)
  }

  ghost predicate Legal(cubes: set<string>, steps: seq<Step>)
    decreases |steps|, 0
  {
    steps == [] ||
    var last := steps[|steps| - 1];
    Legal(cubes, steps[..|steps| - 1]) &&
    (Accepted(cubes, last.event) ==> Newest(Run(cubes, steps[..|steps| - 1]), last.event.cube, last.chosen))
  }

  predicate NonDecreasing(steps: seq<Step>) {
    (forall i :: 0 <= i < |steps| ==> steps[i].event.closing <= steps[i].event.opening) &&
    forall i, j :: 0 <= i < j < |steps| ==> steps[i].event.opening <= steps[j].event.closing
  }

  predicate Increasing(steps: seq<Step>) {
    NonDecreasing(steps) &&
    forall i, j :: 0 <= i < j < |steps| ==> steps[i].event.opening < steps[j].event.closing
  }

  /** The accepted events of one cube. */
  function Own(cubes: set<string>, steps: seq<Step>, cube: string): (own: seq<Event>)
    ensures forall k :: 0 <= k < |own| ==> Accepted(cubes, own[k]) && own[k].cube == cube
  {
    if steps == [] then []
    else
      var e := steps[|steps| - 1].event;
      Own(cubes, steps[..|steps| - 1], cube) + if Accepted(cubes, e) && e.cube == cube then [e] else []
  }

  /** No event repeats the (positive) side of the cube's previous event. */
  predicate NeverRepeats(own: seq<Event>) {
    forall k :: 0 < k < |own| ==> own[k].side == own[k - 1].side ==> own[k].side.None? || own[k].side.value <= 0
  }

  /** The side the cube lies on after its events: side 0 puts it to sleep. */
  function LastSide(own: seq<Event>): Option<int> {
    if own == [] || own[|own| - 1].side.None? || own[|own| - 1].side.value <= 0 then None
    else own[|own| - 1].side
  }

  /** Each session of the cube has ended before the next one starts; so only the newest can be open. */
  predicate Tidy(sessions: seq<WorkSession>, cube: string) {
    forall i, j :: 0 <= i < j < |sessions| && sessions[i].cube == cube && sessions[j].cube == cube ==>
      sessions[i].end.Some? && sessions[i].end.value <= sessions[j].start
  }

  /** The open session of the cube has this side; None if it has no open session. */
  predicate Shows(sessions: seq<WorkSession>, cube: string, side: Option<int>) {
    (forall i :: 0 <= i < |sessions| && OpenOf(sessions[i], cube) ==> side == Some(sessions[i].side)) &&
    (side.Some? ==> exists i :: 0 <= i < |sessions| && OpenOf(sessions[i], cube))
  }

  predicate Sound(session: WorkSession, now: int) {
    session.side > 0 && session.start <= now &&
    (session.end.Some? ==>
       session.start <= session.end.value <= now &&
       session.duration == Some((session.end.value - session.start) / NANOS_PER_SECOND))
  }

  predicate AllSound(sessions: seq<WorkSession>, now: int) {
    forall i :: 0 <= i < |sessions| ==> Sound(sessions[i], now)
  }

  lemma StepSound(cubes: set<string>, sessions: seq<WorkSession>, e: Event, chosen: Option<nat>, now: int)
    requires Accepted(cubes, e) ==> Newest(sessions, e.cube, chosen)
    requires AllSound(sessions, now) && now <= e.closing <= e.opening
    ensures AllSound(After(cubes, sessions, e, chosen), e.opening)
  {
  }

  /** Every session ever stored has a positive side, ends no earlier than it starts and carries its length. */
  lemma {:induction false} RunSound(cubes: set<string>, steps: seq<Step>, now: int)
    requires Legal(cubes, steps) && NonDecreasing(steps)
    requires forall i :: 0 <= i < |steps| ==> steps[i].event.opening <= now
    ensures AllSound(Run(cubes, steps), now)
  {
    if steps != [] {
      var n := |steps| - 1;
      var e := steps[n].event;
      RunSound(cubes, steps[..n], e.closing);
      StepSound(cubes, Run(cubes, steps[..n]), e, steps[n].chosen, e.closing);
    }
  }

  /** An event touches no session of another cube, and none but the chosen one. Closing sets end and length, nothing else. */
  lemma OthersUntouched(cubes: set<string>, sessions: seq<WorkSession>, e: Event, chosen: Option<nat>)
    requires Accepted(cubes, e) ==> Newest(sessions, e.cube, chosen)
    ensures var after := After(cubes, sessions, e, chosen);
            |sessions| <= |after| <= |sessions| + 1 &&
            (forall i :: 0 <= i < |sessions| && sessions[i].cube != e.cube ==> after[i] == sessions[i]) &&
            (forall i :: 0 <= i < |sessions| && Some(i) != chosen ==> after[i] == sessions[i]) &&
            (forall i :: 0 <= i < |sessions| ==>
               after[i].cube == sessions[i].cube && after[i].side == sessions[i].side && after[i].start == sessions[i].start) &&
            (|after| > |sessions| ==> after[|sessions|].cube == e.cube)
  {
  }

  /** What an event does, field by field: a known cube and a side are needed; the newest open session of another side ends at
      the first clock reading; a positive side starts a session at the second. */
  lemma EventExactly(cubes: set<string>, sessions: seq<WorkSession>, e: Event, chosen: Option<nat>)
    requires e.cube in cubes && e.side.Some? ==> Newest(sessions, e.cube, chosen)
    ensures var after := After(cubes, sessions, e, chosen);
            if e.cube !in cubes || e.side.None? then after == sessions
            else
              && |after| == |sessions| + (if e.side.value > 0 then 1 else 0)
              && (chosen.Some? ==>
                    var s := sessions[chosen.value];
                    after[chosen.value] ==
                    if s.side == e.side.value then s
                    else WorkSession(s.cube, s.side, s.start, Some(e.closing), Some((e.closing - s.start) / 1_000_000_000)))
              && (e.side.value > 0 ==> after[|sessions|] == WorkSession(e.cube, e.side.value, e.opening, None, None))
  {
  }

  /** Which session it picks: of those of the cube that have no end, wherever they stand, one that started last. */
  lemma NewestExactly(sessions: seq<WorkSession>, cube: string, chosen: Option<nat>, j: nat)
    requires Newest(sessions, cube, chosen) && j < |sessions| && sessions[j].cube == cube && sessions[j].end == None
    ensures chosen.Some? && chosen.value < |sessions|
    ensures var s := sessions[chosen.value]; s.cube == cube && s.end == None && s.start >= sessions[j].start
  {
  }

  lemma StepTidy(cubes: set<string>, sessions: seq<WorkSession>, e: Event, chosen: Option<nat>, side: Option<int>)
    requires Accepted(cubes, e) && Newest(sessions, e.cube, chosen)
    requires Tidy(sessions, e.cube) && Shows(sessions, e.cube, side) && AllSound(sessions, e.closing)
    requires e.closing <= e.opening && (e.side.value > 0 ==> side != e.side)
    ensures Tidy(After(cubes, sessions, e, chosen), e.cube)
    ensures Shows(After(cubes, sessions, e, chosen), e.cube, if e.side.value > 0 then e.side else None)
  {
    var closed := AfterClosing(sessions, e, chosen);
    forall i | 0 <= i < |sessions|
      ensures closed[i].cube == sessions[i].cube && closed[i].start == sessions[i].start
      ensures sessions[i].cube == e.cube ==> closed[i].end.Some? && closed[i].end.value <= e.closing
      ensures sessions[i].end.Some? ==> closed[i] == sessions[i]
    {
      if OpenOf(sessions[i], e.cube) {
        assert !(i < chosen.value) && !(chosen.value < i);
      }
    }
    var after := After(cubes, sessions, e, chosen);
    assert forall i :: 0 <= i < |sessions| ==> after[i] == closed[i];
    if e.side.value > 0 {
      assert OpenOf(after[|sessions|], e.cube);
    }
  }

  lemma StepElsewhere(cubes: set<string>, sessions: seq<WorkSession>, e: Event, chosen: Option<nat>, cube: string, side: Option<int>)
    requires Accepted(cubes, e) ==> Newest(sessions, e.cube, chosen)
    requires Accepted(cubes, e) ==> e.cube != cube
    requires Tidy(sessions, cube) && Shows(sessions, cube, side)
    ensures Tidy(After(cubes, sessions, e, chosen), cube) && Shows(After(cubes, sessions, e, chosen), cube, side)
  {
    var after := After(cubes, sessions, e, chosen);
    OthersUntouched(cubes, sessions, e, chosen);
    if side.Some? {
      var i :| 0 <= i < |sessions| && OpenOf(sessions[i], cube);
      assert OpenOf(after[i], cube);
    }
  }

  lemma OwnGrows(cubes: set<string>, steps: seq<Step>, cube: string)
    requires steps != []
    ensures var own := Own(cubes, steps, cube);
            var prefix := Own(cubes, steps[..|steps| - 1], cube);
            var e := steps[|steps| - 1].event;
            own == prefix + (if Accepted(cubes, e) && e.cube == cube then [e] else []) &&
            (NeverRepeats(own) <==>
             NeverRepeats(prefix) && (Accepted(cubes, e) && e.cube == cube && e.side.value > 0 ==> LastSide(prefix) != e.side))
  {
    var own := Own(cubes, steps, cube);
    var prefix := Own(cubes, steps[..|steps| - 1], cube);
    var e := steps[|steps| - 1].event;
    assert forall k :: 0 <= k < |prefix| ==> own[k] == prefix[k];
    if Accepted(cubes, e) && e.cube == cube {
      assert own[|prefix|] == e;
    }
  }

  /** If no event of the cube repeats its side, the cube has at most one open session, the newest, with the side of
      the cube's last event, and its closed sessions do not overlap; whatever the other cubes do. */
  lemma {:induction false} RunTidy(cubes: set<string>, steps: seq<Step>, cube: string)
    requires Legal(cubes, steps) && NonDecreasing(steps) && NeverRepeats(Own(cubes, steps, cube))
    ensures Tidy(Run(cubes, steps), cube) && Shows(Run(cubes, steps), cube, LastSide(Own(cubes, steps, cube)))
  {
    if steps != [] {
      var n := |steps| - 1;
      var e, chosen := steps[n].event, steps[n].chosen;
      OwnGrows(cubes, steps, cube);
      RunTidy(cubes, steps[..n], cube);
      var sessions, side := Run(cubes, steps[..n]), LastSide(Own(cubes, steps[..n], cube));
      if Accepted(cubes, e) && e.cube == cube {
        RunSound(cubes, steps[..n], e.closing);
        StepTidy(cubes, sessions, e, chosen, side);
      } else {
        StepElsewhere(cubes, sessions, e, chosen, cube, side);
      }
    }
  }

  // ---------- what a repeated side does ----------

  lemma StaysTangled(cubes: set<string>, sessions: seq<WorkSession>, e: Event, chosen: Option<nat>, cube: string)
    requires Accepted(cubes, e) ==> Newest(sessions, e.cube, chosen)
    requires !Tidy(sessions, cube)
    requires forall i :: 0 <= i < |sessions| ==> sessions[i].start < e.closing
    ensures !Tidy(After(cubes, sessions, e, chosen), cube)
  {
    var i, j :| 0 <= i < j < |sessions| && sessions[i].cube == cube && sessions[j].cube == cube &&
                !(sessions[i].end.Some? && sessions[i].end.value <= sessions[j].start);
    var after := After(cubes, sessions, e, chosen);
    OthersUntouched(cubes, sessions, e, chosen);
    assert after[i].cube == cube && after[j].cube == cube && after[j].start == sessions[j].start;
  }

  lemma RepeatTangles(cubes: set<string>, sessions: seq<WorkSession>, e: Event, chosen: Option<nat>)
    requires Accepted(cubes, e) && Newest(sessions, e.cube, chosen)
    requires e.side.value > 0 && Shows(sessions, e.cube, e.side)
    ensures var after := After(cubes, sessions, e, chosen);
            !Tidy(after, e.cube) &&
            exists i, j :: 0 <= i < j < |after| && OpenOf(after[i], e.cube) && OpenOf(after[j], e.cube)
  {
    var after := After(cubes, sessions, e, chosen);
    var i := chosen.value;
    assert OpenOf(after[i], e.cube) && OpenOf(after[|sessions|], e.cube);
  }

  lemma {:induction false} StartsBefore(cubes: set<string>, steps: seq<Step>, now: int)
    requires Legal(cubes, steps) && forall i :: 0 <= i < |steps| ==> steps[i].event.opening < now
    ensures forall i :: 0 <= i < |Run(cubes, steps)| ==> Run(cubes, steps)[i].start < now
  {
    if steps != [] {
      var n := |steps| - 1;
      StartsBefore(cubes, steps[..n], now);
      OthersUntouched(cubes, Run(cubes, steps[..n]), steps[n].event, steps[n].chosen);
    }
  }

  /** With a strictly increasing clock a cube's sessions stay apart exactly if no event repeats its side. */
  lemma {:induction false} TidyExactly(cubes: set<string>, steps: seq<Step>, cube: string)
    requires Legal(cubes, steps) && Increasing(steps)
    ensures Tidy(Run(cubes, steps), cube) <==> NeverRepeats(Own(cubes, steps, cube))
  {
    if NeverRepeats(Own(cubes, steps, cube)) {
      RunTidy(cubes, steps, cube);
    } else {
      var n := |steps| - 1;
      var e, chosen := steps[n].event, steps[n].chosen;
      OwnGrows(cubes, steps, cube);
      if NeverRepeats(Own(cubes, steps[..n], cube)) {
        RunTidy(cubes, steps[..n], cube);
        RepeatTangles(cubes, Run(cubes, steps[..n]), e, chosen);
      } else {
        TidyExactly(cubes, steps[..n], cube);
        StartsBefore(cubes, steps[..n], e.closing);
        StaysTangled(cubes, Run(cubes, steps[..n]), e, chosen, cube);
      }
    }
  }

  /** Two events with the same side, and then a sleep: the older session is still open. */
  lemma RepeatedSideLeavesSessionOpen(cube: string)
    ensures var first := Step(Event(cube, Some(3), 10, 10), None);
            var second := Step(Event(cube, Some(3), 20, 20), Some(0));
            var asleep := Step(Event(cube, Some(0), 30, 30), Some(1));
            Legal({cube}, [first, second, asleep]) &&
            var sessions := Run({cube}, [first, second, asleep]);
            |sessions| == 2 && OpenOf(sessions[0], cube) && sessions[1].end == Some(30)
  {
    var first := Step(Event(cube, Some(3), 10, 10), None);
    var second := Step(Event(cube, Some(3), 20, 20), Some(0));
    var asleep := Step(Event(cube, Some(0), 30, 30), Some(1));
    var one, two := [first], [first, second];
    var three := [first, second, asleep];
    assert one[..0] == [] && two[..1] == one && three[..2] == two;
    assert Newest([], cube, None) && Run({cube}, one[..0]) == [];
    assert Legal({cube}, one[..0]) && Legal({cube}, one);
    assert Run({cube}, one) == [Opened(first.event)];
    assert Legal({cube}, two);
    assert Run({cube}, two) == [Opened(first.event), Opened(second.event)];
    assert Legal({cube}, three);
  }

  // ---------- the history of one cube ----------

  /** The sessions of one cube, in the order they were stored. */
  function OfCube(sessions: seq<WorkSession>, cube: string): seq<WorkSession> {
    if sessions == [] then []
    else
      var last := sessions[|sessions| - 1];
      OfCube(sessions[..|sessions| - 1], cube) + if last.cube == cube then [last] else []
  }

  /** The sessions that a cube's events stand for: each one lasts until the cube's next event, the last until `next`. */
  function Timeline(own: seq<Event>, next: Option<int>): seq<WorkSession>
    requires forall k :: 0 <= k < |own| ==> own[k].side.Some?
  {
    if own == [] then []
    else
      var e := own[|own| - 1];
      Timeline(own[..|own| - 1], Some(e.closing)) + Lasting(e, next)
  }

  /** The session that an event starts, if it does, until the next one. */
  function Lasting(e: Event, next: Option<int>): seq<WorkSession>
    requires e.side.Some?
  {
    if e.side.value <= 0 then []
    else if next.None? then [WorkSession(e.cube, e.side.value, e.opening, None, None)]
    else [WorkSession(e.cube, e.side.value, e.opening, next, Some((next.value - e.opening) / NANOS_PER_SECOND))]
  }

  lemma {:induction false} UpdateElsewhere(sessions: seq<WorkSession>, i: nat, x: WorkSession, cube: string)
    requires i < |sessions| && sessions[i].cube != cube && x.cube != cube
    ensures OfCube(sessions[i := x], cube) == OfCube(sessions, cube)
  {
    var n := |sessions| - 1;
    if i < n {
      assert sessions[i := x][..n] == sessions[..n][i := x];
      UpdateElsewhere(sessions[..n], i, x, cube);
    } else {
      assert sessions[i := x][..n] == sessions[..n];
    }
  }

  lemma {:induction false} UpdateLast(sessions: seq<WorkSession>, i: nat, x: WorkSession, cube: string)
    requires i < |sessions| && sessions[i].cube == cube && x.cube == cube
    requires forall j :: i < j < |sessions| ==> sessions[j].cube != cube
    ensures var mine := OfCube(sessions, cube);
            mine != [] && mine[|mine| - 1] == sessions[i] && OfCube(sessions[i := x], cube) == mine[..|mine| - 1] + [x]
  {
    var n := |sessions| - 1;
    if i < n {
      assert sessions[i := x][..n] == sessions[..n][i := x];
      UpdateLast(sessions[..n], i, x, cube);
    } else {
      assert sessions[i := x][..n] == sessions[..n];
    }
  }

  lemma OfCubeAppend(sessions: seq<WorkSession>, x: WorkSession, cube: string)
    ensures OfCube(sessions + [x], cube) == OfCube(sessions, cube) + if x.cube == cube then [x] else []
  {
  }

  lemma {:induction false} OpenIsListed(sessions: seq<WorkSession>, cube: string, k: nat)
    requires k < |OfCube(sessions, cube)| && OfCube(sessions, cube)[k].end.None?
    ensures exists i :: 0 <= i < |sessions| && OpenOf(sessions[i], cube)
  {
    var n := |sessions| - 1;
    var front := OfCube(sessions[..n], cube);
    if k < |front| {
      OpenIsListed(sessions[..n], cube, k);
      var i :| 0 <= i < n && OpenOf(sessions[..n][i], cube);
      assert OpenOf(sessions[i], cube);
    } else {
      assert OpenOf(sessions[n], cube);
    }
  }

  /** Closing the open session, if there is one, at the end of a cube's list. */
  function Ended(mine: seq<WorkSession>, now: int): seq<WorkSession> {
    if mine != [] && mine[|mine| - 1].end.None? then mine[..|mine| - 1] + [Closed(mine[|mine| - 1], now)] else mine
  }

  lemma StepHistory(cubes: set<string>, sessions: seq<WorkSession>, e: Event, chosen: Option<nat>, side: Option<int>)
    requires Accepted(cubes, e) && Newest(sessions, e.cube, chosen)
    requires Tidy(sessions, e.cube) && Shows(sessions, e.cube, side) && (side.Some? ==> side != e.side)
    ensures OfCube(After(cubes, sessions, e, chosen), e.cube) ==
            Ended(OfCube(sessions, e.cube), e.closing) + if e.side.value > 0 then [Opened(e)] else []
  {
    var mine := OfCube(sessions, e.cube);
    var closed := AfterClosing(sessions, e, chosen);
    if chosen.Some? {
      UpdateLast(sessions, chosen.value, Closed(sessions[chosen.value], e.closing), e.cube);
    } else if mine != [] && mine[|mine| - 1].end.None? {
      OpenIsListed(sessions, e.cube, |mine| - 1);
    }
    assert OfCube(closed, e.cube) == Ended(mine, e.closing);
    if e.side.value > 0 {
      OfCubeAppend(closed, Opened(e), e.cube);
    } else {
      assert closed + [] == closed;
    }
  }

  lemma StepElsewhereHistory(cubes: set<string>, sessions: seq<WorkSession>, e: Event, chosen: Option<nat>, cube: string)
    requires Accepted(cubes, e) ==> Newest(sessions, e.cube, chosen)
    requires Accepted(cubes, e) ==> e.cube != cube
    ensures OfCube(After(cubes, sessions, e, chosen), cube) == OfCube(sessions, cube)
  {
    if Accepted(cubes, e) {
      var closed := AfterClosing(sessions, e, chosen);
      if chosen.Some? {
        UpdateElsewhere(sessions, chosen.value, Closed(sessions[chosen.value], e.closing), cube);
      }
      assert OfCube(closed, cube) == OfCube(sessions, cube);
      if e.side.value > 0 {
        OfCubeAppend(closed, Opened(e), cube);
      } else {
        assert closed + [] == closed;
      }
    }
  }

  lemma {:induction false} TimelineClosed(own: seq<Event>, now: int)
    requires forall k :: 0 <= k < |own| ==> own[k].side.Some?
    ensures forall x :: x in Timeline(own, Some(now)) ==> x.end.Some?
  {
    if own != [] {
      TimelineClosed(own[..|own| - 1], own[|own| - 1].closing);
    }
  }

  lemma {:induction false} TimelineEnds(own: seq<Event>, now: int)
    requires forall k :: 0 <= k < |own| ==> own[k].side.Some?
    ensures Timeline(own, Some(now)) == Ended(Timeline(own, None), now)
  {
    if own != [] {
      var e := own[|own| - 1];
      var front := Timeline(own[..|own| - 1], Some(e.closing));
      TimelineClosed(own[..|own| - 1], e.closing);
      LastEnds(front, e, now);
    }
  }

  lemma LastEnds(front: seq<WorkSession>, e: Event, now: int)
    requires e.side.Some? && forall x :: x in front ==> x.end.Some?
    ensures Ended(front + Lasting(e, None), now) == front + Lasting(e, Some(now))
  {
    assert front + [] == front;
    if e.side.value > 0 {
      assert (front + Lasting(e, None))[..|front|] == front;
    }
  }

  lemma OwnHistory(cubes: set<string>, sessions: seq<WorkSession>, e: Event, chosen: Option<nat>, own: seq<Event>)
    requires Accepted(cubes, e) && Newest(sessions, e.cube, chosen)
    requires forall k :: 0 <= k < |own| ==> own[k].side.Some?
    requires Tidy(sessions, e.cube) && Shows(sessions, e.cube, LastSide(own))
    requires e.side.value > 0 ==> LastSide(own) != e.side
    requires OfCube(sessions, e.cube) == Timeline(own, None)
    ensures OfCube(After(cubes, sessions, e, chosen), e.cube) == Timeline(own + [e], None)
  {
    StepHistory(cubes, sessions, e, chosen, LastSide(own));
    TimelineEnds(own, e.closing);
    TimelineGrows(own, e);
  }

  lemma TimelineGrows(own: seq<Event>, e: Event)
    requires e.side.Some? && forall k :: 0 <= k < |own| ==> own[k].side.Some?
    ensures Timeline(own + [e], None) == Timeline(own, Some(e.closing)) + if e.side.value > 0 then [Opened(e)] else []
  {
    var more := own + [e];
    assert more[..|own|] == own && more[|own|] == e;
  }

  lemma {:induction false} RunHistory(cubes: set<string>, steps: seq<Step>, cube: string)
    requires Legal(cubes, steps) && NonDecreasing(steps) && NeverRepeats(Own(cubes, steps, cube))
    ensures OfCube(Run(cubes, steps), cube) == Timeline(Own(cubes, steps, cube), None)
  {
    if steps != [] {
      var n := |steps| - 1;
      var e, chosen := steps[n].event, steps[n].chosen;
      var own := Own(cubes, steps[..n], cube);
      OwnGrows(cubes, steps, cube);
      RunHistory(cubes, steps[..n], cube);
      if Accepted(cubes, e) && e.cube == cube {
        RunTidy(cubes, steps[..n], cube);
        OwnHistory(cubes, Run(cubes, steps[..n]), e, chosen, own);
      } else {
        assert Own(cubes, steps, cube) == own;
        StepElsewhereHistory(cubes, Run(cubes, steps[..n]), e, chosen, cube);
      }
    }
  }

  /** What is stored for a cube depends on that cube's events alone, however they are interleaved with others. */
  lemma CubesAreIndependent(cubes: set<string>, one: seq<Step>, other: seq<Step>, cube: string)
    requires Legal(cubes, one) && Legal(cubes, other) && NonDecreasing(one) && NonDecreasing(other)
    requires Own(cubes, one, cube) == Own(cubes, other, cube) && NeverRepeats(Own(cubes, one, cube))
    ensures OfCube(Run(cubes, one), cube) == OfCube(Run(cubes, other), cube)
  {
    RunHistory(cubes, one, cube);
    RunHistory(cubes, other, cube);
  }
}
