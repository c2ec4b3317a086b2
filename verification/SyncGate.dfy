/** Admission of title syncs (internal/runtime/title_sync_gate.go). */
module SyncGate {
  datatype Attempt = Attempt(marker: string, generation: nat, id: nat)

  datatype MarkerState = MarkerState(inFlight: bool, retainedSuccess: bool, generation: nat, attemptID: nat)

  const ZERO := MarkerState(false, false, 0, 0)

  /** The contents of a gate as a value. */
  datatype Gate = Gate(states: map<string, MarkerState>, nextID: nat)

  function NewGate(markers: seq<string>): Gate {
    Gate(map m | m in markers :: ZERO, 0)
  }

  predicate Admits(g: Gate, marker: string) {
    marker in g.states && !g.states[marker].inFlight && !g.states[marker].retainedSuccess
  }

  function Issued(g: Gate, marker: string): Attempt
    requires marker in g.states
  {
    Attempt(marker, g.states[marker].generation, g.nextID + 1)
  }

  function AfterBegin(g: Gate, marker: string): Gate {
    if !Admits(g, marker) then g
    else Gate(g.states[marker := g.states[marker].(inFlight := true, attemptID := g.nextID + 1)], g.nextID + 1)
  }

  predicate Current(g: Gate, a: Attempt) {
    a.marker in g.states && g.states[a.marker].attemptID == a.id && g.states[a.marker].inFlight
  }

  function AfterFinish(g: Gate, a: Attempt, succeeded: bool): Gate {
    if !Current(g, a) then g
    else
      var st := g.states[a.marker];
      var retained := if st.generation == a.generation then succeeded else st.retainedSuccess;
      g.(states := g.states[a.marker := st.(inFlight := false, retainedSuccess := retained)])
  }

  /** An unknown marker becomes known when it is cleared. */
  function AfterClear(g: Gate, marker: string): Gate {
    var st := if marker in g.states then g.states[marker] else ZERO;
    g.(states := g.states[marker := st.(generation := st.generation + 1, retainedSuccess := false)])
  }

  function AfterClears(g: Gate, markers: seq<string>): Gate {
    if markers == [] then g else AfterClear(AfterClears(g, markers[..|markers| - 1]), markers[|markers| - 1])
  }

  datatype Refusal = UnknownMarker | TooFrequent

  datatype Admission = Admitted(attempt: Attempt) | Turned(why: Refusal)

  class TitleSyncGate {
    const markers: seq<string>
    var states: map<string, MarkerState>
    var nextID: nat

    ghost function Contents(): Gate
      reads this
    {
      Gate(states, nextID)
    }

    constructor (markers: seq<string>)
      ensures Contents() == NewGate(markers) && this.markers == markers
    {
      this.markers := markers;
      states := map m | m in markers :: ZERO;
      nextID := 0;
    }

    method Begin(marker: string) returns (r: Admission)
      modifies this
      ensures Contents() == AfterBegin(old(Contents()), marker)
      ensures r.Admitted? <==> Admits(old(Contents()), marker)
      ensures r.Admitted? ==> r.attempt == Issued(old(Contents()), marker) && Current(Contents(), r.attempt)
      ensures r.Turned? ==> (r.why.UnknownMarker? <==> marker !in old(states))
    {
      if marker !in states {
        return Turned(UnknownMarker);
      }
      var st := states[marker];
      if st.inFlight || st.retainedSuccess {
        return Turned(TooFrequent);
      }
      nextID := nextID + 1;
      st := st.(inFlight := true, attemptID := nextID);
      states := states[marker := st];
      r := Admitted(Attempt(marker, st.generation, st.attemptID));
    }

    method Finish(attempt: Attempt, succeeded: bool)
      modifies this
      ensures Contents() == AfterFinish(old(Contents()), attempt, succeeded)
    {
      if attempt.marker !in states {
        return;
      }
      var st := states[attempt.marker];
      if st.attemptID != attempt.id || !st.inFlight {
        return;
      }
      st := st.(inFlight := false);
      if st.generation == attempt.generation {
        st := st.(retainedSuccess := succeeded);
      }
      states := states[attempt.marker := st];
    }

    method Clear(marker: string)
      modifies this
      ensures Contents() == AfterClear(old(Contents()), marker)
    {
      var st := if marker in states then states[marker] else ZERO;
      st := st.(generation := st.generation + 1, retainedSuccess := false);
      states := states[marker := st];
    }

    method ClearAll()
      modifies this
      ensures Contents() == AfterClears(old(Contents()), markers)
    {
      for i := 0 to |markers|
        invariant Contents() == AfterClears(old(Contents()), markers[..i])
      {
        assert markers[..i + 1][..i] == markers[..i];
        Clear(markers[i]);
      }
      assert markers[..|markers|] == markers;
    }
  }

  // ----- Histories -----

  /** One call of the gate, with what it returned. */
  datatype Event =
    | Began(attempt: Attempt)
    | Refused(marker: string)
    | Finished(attempt: Attempt, succeeded: bool)
    | Cleared(marker: string)

  function Apply(g: Gate, e: Event): Gate {
    match e
    case Began(a) => AfterBegin(g, a.marker)
    case Refused(marker) => AfterBegin(g, marker)
    case Finished(a, succeeded) => AfterFinish(g, a, succeeded)
    case Cleared(marker) => AfterClear(g, marker)
  }

  function Run(markers: seq<string>, h: seq<Event>): Gate {
    if h == [] then NewGate(markers) else Apply(Run(markers, h[..|h| - 1]), h[|h| - 1])
  }

  /** The gate can have answered so, and only attempts it has handed out are finished. */
  ghost predicate Answers(g: Gate, h: seq<Event>, e: Event) {
    match e
    case Began(a) => Admits(g, a.marker) && a == Issued(g, a.marker)
    case Refused(marker) => !Admits(g, marker)
    case Finished(a, _) => exists i :: BeganAt(h, i, a)
    case Cleared(_) => true
  }

  ghost predicate BeganAt(h: seq<Event>, i: int, a: Attempt) {
    0 <= i < |h| && h[i] == Began(a)
  }

  ghost predicate Faithful(markers: seq<string>, h: seq<Event>) {
    h == [] || (Faithful(markers, h[..|h| - 1]) && Answers(Run(markers, h[..|h| - 1]), h[..|h| - 1], h[|h| - 1]))
  }

  /** The attempt begun at `i` has not been finished. Only the history is consulted. */
  ghost predicate OpenAt(h: seq<Event>, marker: string, i: int) {
    && 0 <= i < |h| && h[i].Began? && h[i].attempt.marker == marker
    && !FinishedWithin(h, i, |h|)
  }

  ghost predicate FinishedWithin(h: seq<Event>, i: int, upTo: int)
    requires 0 <= i < |h| && h[i].Began? && upTo <= |h|
  {
    exists j :: i < j < upTo && Finishes(h[j], h[i].attempt)
  }

  predicate Finishes(e: Event, a: Attempt) {
    e.Finished? && e.attempt == a
  }

  ghost predicate ClearedSince(h: seq<Event>, marker: string, i: int) {
    exists j :: 0 <= i < j < |h| && h[j] == Cleared(marker)
  }

  /** The attempt begun at `i` was finished at `j` for the first time, as a success, and the
      marker has not been cleared since its begin. */
  ghost predicate WonAt(h: seq<Event>, marker: string, i: int, j: int) {
    && 0 <= i < j < |h| && h[i].Began? && h[i].attempt.marker == marker && h[j] == Finished(h[i].attempt, true)
    && !FinishedWithin(h, i, j) && !ClearedSince(h, marker, i)
  }

  ghost predicate Known(markers: seq<string>, h: seq<Event>, marker: string) {
    marker in markers || exists i :: 0 <= i < |h| && h[i] == Cleared(marker)
  }

  // ----- How a longer history changes these -----

  lemma OpenLater(h: seq<Event>, e: Event, marker: string, i: int)
    ensures OpenAt(h + [e], marker, i) <==>
      (OpenAt(h, marker, i) && !Finishes(e, h[i].attempt)) || (i == |h| && e.Began? && e.attempt.marker == marker)
  {
    var g := h + [e];
    if 0 <= i < |h| && h[i].Began? {
      if FinishedWithin(h, i, |h|) {
        var j :| i < j < |h| && Finishes(h[j], h[i].attempt);
        assert Finishes(g[j], g[i].attempt);
      }
      if Finishes(e, h[i].attempt) {
        assert Finishes(g[|h|], g[i].attempt);
      }
    }
  }

  lemma ClearedLater(h: seq<Event>, e: Event, marker: string, i: int)
    requires 0 <= i <= |h|
    ensures ClearedSince(h + [e], marker, i) <==> ClearedSince(h, marker, i) || (i < |h| && e == Cleared(marker))
  {
    var g := h + [e];
    if ClearedSince(h, marker, i) {
      var j :| 0 <= i < j < |h| && h[j] == Cleared(marker);
      assert g[j] == Cleared(marker);
    }
    if i < |h| && e == Cleared(marker) {
      assert g[|h|] == Cleared(marker);
    }
  }

  lemma WonLater(h: seq<Event>, e: Event, marker: string, i: int, j: int)
    ensures WonAt(h + [e], marker, i, j) <==>
      || (WonAt(h, marker, i, j) && e != Cleared(marker))
      || (j == |h| && OpenAt(h, marker, i) && e == Finished(h[i].attempt, true) && !ClearedSince(h, marker, i))
  {
    var g := h + [e];
    if 0 <= i < j <= |h| && h[i].Began? {
      ClearedLater(h, e, marker, i);
      assert FinishedWithin(g, i, j) <==> FinishedWithin(h, i, j) by {
        if FinishedWithin(h, i, j) {
          var k :| i < k < j && Finishes(h[k], h[i].attempt);
          assert Finishes(g[k], g[i].attempt);
        }
        if FinishedWithin(g, i, j) {
          var k :| i < k < j && Finishes(g[k], g[i].attempt);
          assert Finishes(h[k], h[i].attempt);
        }
      }
    }
  }

  // ----- The gate agrees with its history -----

  /** Ids are handed out once. */
  ghost predicate IdsOk(h: seq<Event>, nextID: nat) {
    && (forall i | 0 <= i < |h| && h[i].Began? :: 0 < h[i].attempt.id <= nextID)
    && (forall i, j | 0 <= i < j < |h| && h[i].Began? && h[j].Began? :: h[i].attempt.id < h[j].attempt.id)
  }

  /** An open attempt is the one in flight; its generation is current unless a clear has
      come in between. */
  ghost predicate OpenOk(h: seq<Event>, marker: string, st: MarkerState, i: int) {
    OpenAt(h, marker, i) ==>
      && st.inFlight && h[i].attempt.id == st.attemptID && h[i].attempt.generation <= st.generation
      && (h[i].attempt.generation < st.generation <==> ClearedSince(h, marker, i))
  }

  ghost predicate MarkerOk(h: seq<Event>, marker: string, st: MarkerState) {
    && (forall i :: OpenOk(h, marker, st, i))
    && (st.inFlight ==> exists i :: OpenAt(h, marker, i))
    && (forall i, j :: WonAt(h, marker, i, j) ==> st.retainedSuccess)
    && (st.retainedSuccess ==> exists i, j :: WonAt(h, marker, i, j))
    && !(st.inFlight && st.retainedSuccess)
  }

  ghost predicate GateOk(markers: seq<string>, h: seq<Event>, g: Gate) {
    && IdsOk(h, g.nextID)
    && (forall marker :: marker in g.states <==> Known(markers, h, marker))
    && (forall marker | marker in g.states :: MarkerOk(h, marker, g.states[marker]))
    && (forall i | 0 <= i < |h| && h[i].Began? :: h[i].attempt.marker in g.states)
  }

  lemma SameAttempt(h: seq<Event>, nextID: nat, i: int, j: int)
    requires IdsOk(h, nextID) && 0 <= i < |h| && 0 <= j < |h| && h[i].Began? && h[j].Began?
    requires h[i].attempt.id == h[j].attempt.id
    ensures i == j
  {
  }

  lemma BeginMarker(h: seq<Event>, g: Gate, a: Attempt)
    requires Admits(g, a.marker) && a == Issued(g, a.marker) && MarkerOk(h, a.marker, g.states[a.marker])
    ensures MarkerOk(h + [Began(a)], a.marker, AfterBegin(g, a.marker).states[a.marker])
  {
    var e := Began(a);
    forall i ensures OpenOk(h + [e], a.marker, AfterBegin(g, a.marker).states[a.marker], i) {
      OpenLater(h, e, a.marker, i);
      assert OpenOk(h, a.marker, g.states[a.marker], i);
    }
    OpenLater(h, e, a.marker, |h|);
    assert OpenAt(h + [e], a.marker, |h|);
    forall i, j ensures !WonAt(h + [e], a.marker, i, j) {
      WonLater(h, e, a.marker, i, j);
    }
  }

  lemma FinishMarker(h: seq<Event>, g: Gate, a: Attempt, succeeded: bool, at: int)
    requires IdsOk(h, g.nextID) && BeganAt(h, at, a) && Current(g, a) && MarkerOk(h, a.marker, g.states[a.marker])
    ensures MarkerOk(h + [Finished(a, succeeded)], a.marker, AfterFinish(g, a, succeeded).states[a.marker])
  {
    var e, st, next := Finished(a, succeeded), g.states[a.marker], AfterFinish(g, a, succeeded).states[a.marker];
    var k :| OpenAt(h, a.marker, k);
    assert OpenOk(h, a.marker, st, k);
    SameAttempt(h, g.nextID, k, at);
    forall i ensures !OpenAt(h + [e], a.marker, i) {
      OpenLater(h, e, a.marker, i);
      if OpenAt(h, a.marker, i) {
        assert OpenOk(h, a.marker, st, i);
        SameAttempt(h, g.nextID, i, at);
      }
    }
    forall i, j ensures WonAt(h + [e], a.marker, i, j) ==> next.retainedSuccess {
      WonLater(h, e, a.marker, i, j);
      if WonAt(h + [e], a.marker, i, j) {
        assert OpenOk(h, a.marker, st, i);
      }
    }
    if next.retainedSuccess {
      WonLater(h, e, a.marker, at, |h|);
      assert WonAt(h + [e], a.marker, at, |h|);
    }
  }

  lemma ClearMarker(h: seq<Event>, g: Gate, marker: string)
    requires marker in g.states ==> MarkerOk(h, marker, g.states[marker])
    requires marker !in g.states ==> forall i | 0 <= i < |h| && h[i].Began? :: h[i].attempt.marker != marker
    ensures MarkerOk(h + [Cleared(marker)], marker, AfterClear(g, marker).states[marker])
  {
    var e, next := Cleared(marker), AfterClear(g, marker).states[marker];
    forall i ensures OpenOk(h + [e], marker, next, i) {
      OpenLater(h, e, marker, i);
      if OpenAt(h, marker, i) {
        assert OpenOk(h, marker, g.states[marker], i);
        ClearedLater(h, e, marker, i);
      }
    }
    forall i, j ensures !WonAt(h + [e], marker, i, j) {
      WonLater(h, e, marker, i, j);
    }
    if next.inFlight {
      var k :| OpenAt(h, marker, k);
      OpenLater(h, e, marker, k);
    }
  }

  /** An event that does not concern a marker, or that the gate ignores, changes nothing for it. */
  lemma OtherMarker(h: seq<Event>, marker: string, st: MarkerState, e: Event)
    requires MarkerOk(h, marker, st)
    requires e.Began? ==> e.attempt.marker != marker
    requires e.Cleared? ==> e.marker != marker
    requires e.Finished? ==> forall i :: OpenAt(h, marker, i) ==> h[i].attempt != e.attempt
    ensures MarkerOk(h + [e], marker, st)
  {
    forall i ensures OpenOk(h + [e], marker, st, i) {
      OpenLater(h, e, marker, i);
      assert OpenOk(h, marker, st, i);
      if OpenAt(h, marker, i) {
        ClearedLater(h, e, marker, i);
      }
    }
    forall i, j ensures WonAt(h + [e], marker, i, j) <==> WonAt(h, marker, i, j) {
      WonLater(h, e, marker, i, j);
    }
    if st.inFlight {
      var k :| OpenAt(h, marker, k);
      OpenLater(h, e, marker, k);
    }
    if st.retainedSuccess {
      var i, j :| WonAt(h, marker, i, j);
      assert WonAt(h + [e], marker, i, j);
    }
  }

  lemma EventMarker(markers: seq<string>, h: seq<Event>, g: Gate, e: Event, marker: string)
    requires GateOk(markers, h, g) && Answers(g, h, e) && marker in Apply(g, e).states
    ensures MarkerOk(h + [e], marker, Apply(g, e).states[marker])
  {
    if e.Began? && e.attempt.marker == marker {
      BeginMarker(h, g, e.attempt);
    } else if e.Cleared? && e.marker == marker {
      ClearMarker(h, g, marker);
    } else if e.Finished? {
      var at :| BeganAt(h, at, e.attempt);
      if Current(g, e.attempt) && e.attempt.marker == marker {
        FinishMarker(h, g, e.attempt, e.succeeded, at);
      } else {
        forall i ensures OpenAt(h, marker, i) ==> h[i].attempt != e.attempt {
          assert OpenOk(h, marker, g.states[marker], i);
        }
        OtherMarker(h, marker, g.states[marker], e);
      }
    } else {
      OtherMarker(h, marker, g.states[marker], e);
    }
  }

  lemma KnownLater(markers: seq<string>, h: seq<Event>, e: Event, marker: string)
    ensures Known(markers, h + [e], marker) <==> Known(markers, h, marker) || e == Cleared(marker)
  {
    var g := h + [e];
    if i :| 0 <= i < |h| && h[i] == Cleared(marker) {
      assert g[i] == Cleared(marker);
    }
    if e == Cleared(marker) {
      assert g[|h|] == e;
    }
  }

  lemma {:induction false} GateAgrees(markers: seq<string>, h: seq<Event>)
    requires Faithful(markers, h)
    ensures GateOk(markers, h, Run(markers, h))
  {
    if h != [] {
      var before, e := h[..|h| - 1], h[|h| - 1];
      assert h == before + [e];
      GateAgrees(markers, before);
      var g := Run(markers, before);
      forall marker ensures marker in Apply(g, e).states <==> Known(markers, h, marker) {
        KnownLater(markers, before, e, marker);
      }
      forall marker | marker in Apply(g, e).states ensures MarkerOk(h, marker, Apply(g, e).states[marker]) {
        EventMarker(markers, before, g, e, marker);
      }
    }
  }

  // ----- What callers can rely on -----

  /** A marker has at most one unfinished attempt, and it is in flight exactly while it has one. */
  lemma OneOpenAttempt(markers: seq<string>, h: seq<Event>, marker: string, i: int, j: int)
    requires Faithful(markers, h)
    ensures OpenAt(h, marker, i) && OpenAt(h, marker, j) ==> i == j
    ensures (marker in Run(markers, h).states && Run(markers, h).states[marker].inFlight) <==>
      exists k :: OpenAt(h, marker, k)
  {
    GateAgrees(markers, h);
    var g := Run(markers, h);
    if OpenAt(h, marker, i) && OpenAt(h, marker, j) {
      assert OpenOk(h, marker, g.states[marker], i) && OpenOk(h, marker, g.states[marker], j);
      SameAttempt(h, g.nextID, i, j);
    }
    if k :| OpenAt(h, marker, k) {
      assert OpenOk(h, marker, g.states[marker], k);
    }
  }

  /** A sync is admitted exactly when the marker is known, no attempt is unfinished, and no
      attempt begun since the latest clear has succeeded. */
  lemma AdmissionIsHistory(markers: seq<string>, h: seq<Event>, marker: string)
    requires Faithful(markers, h)
    ensures Admits(Run(markers, h), marker) <==>
      && Known(markers, h, marker)
      && !(exists i :: OpenAt(h, marker, i))
      && !(exists i, j :: WonAt(h, marker, i, j))
  {
    GateAgrees(markers, h);
    OneOpenAttempt(markers, h, marker, 0, 0);
  }

  /** Finishing an attempt that is not open, a second time for instance, changes nothing. */
  lemma StaleFinishIsIdle(markers: seq<string>, h: seq<Event>, a: Attempt, succeeded: bool, at: int)
    requires Faithful(markers, h) && BeganAt(h, at, a) && !OpenAt(h, a.marker, at)
    ensures AfterFinish(Run(markers, h), a, succeeded) == Run(markers, h)
  {
    GateAgrees(markers, h);
    var g := Run(markers, h);
    if Current(g, a) {
      var k :| OpenAt(h, a.marker, k);
      assert OpenOk(h, a.marker, g.states[a.marker], k);
      SameAttempt(h, g.nextID, k, at);
    }
  }
}
