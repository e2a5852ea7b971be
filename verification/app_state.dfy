/** The `AppState` listener of `src/instrumentations/app-state.ts`: on each
    change event it may count and emit a foreground or a background span, and
    then remembers the new state. The subscription itself is left to the
    caller: a run is the sequence of states the platform reports. */
module AppStateListener {
  import opened Spans

  const ActiveState: string := "active"
  const BackgroundState: string := "background"
  const InactiveState: string := "inactive"

  const ForegroundSpan: string := "App Foreground"
  const BackgroundSpan: string := "App Background"

  /** The listener's closure: the last state seen, the two counters, and the
      spans emitted so far. */
  datatype Listener = Listener(lastState: string, foreground: nat, background: nat, spans: seq<SpanRecord>)

  /** Installation: `lastState` starts at the current state, nothing counted. */
  function Install(currentState: string): (l: Listener)
    ensures l.lastState == currentState && l.foreground == 0 && l.background == 0 && l.spans == []
  {
    Listener(currentState, 0, 0, [])
  }

  /** One change event. */
  function OnChange(l: Listener, state: string): (l': Listener)
    ensures l'.lastState == state
    ensures l'.foreground == l.foreground + 1 <==> state == ActiveState && l.lastState != ActiveState
    ensures l'.background == l.background + 1 <==>
      (state == BackgroundState || state == InactiveState) && l.lastState == ActiveState
    ensures l'.foreground == l.foreground || l'.background == l.background
    ensures l'.foreground >= l.foreground && l'.background >= l.background
    ensures l'.foreground > l.foreground ==> l'.spans == l.spans + [Marker(ForegroundSpan, [])]
    ensures l'.background > l.background ==> l'.spans == l.spans + [Marker(BackgroundSpan, [])]
    ensures l'.foreground == l.foreground && l'.background == l.background ==> l'.spans == l.spans
  {
    if state == ActiveState && l.lastState != ActiveState then
      Listener(state, l.foreground + 1, l.background, l.spans + [Marker(ForegroundSpan, [])])
    else if (state == BackgroundState || state == InactiveState) && l.lastState == ActiveState then
      Listener(state, l.foreground, l.background + 1, l.spans + [Marker(BackgroundSpan, [])])
    else
      l.(lastState := state)
  }

  /** The listener after a sequence of change events. */
  function Replay(l: Listener, states: seq<string>): Listener
    decreases |states|
  {
    if |states| == 0 then l else OnChange(Replay(l, states[..|states| - 1]), states[|states| - 1])
  }

  function CountNamed(spans: seq<SpanRecord>, name: string): nat
    decreases |spans|
  {
    if |spans| == 0 then 0
    else CountNamed(spans[..|spans| - 1], name) + (if spans[|spans| - 1].name == name then 1 else 0)
  }

  /** The counters and the spans agree: each count is the number of spans of
      its name, every span is ended once, and only the two names occur. */
  lemma {:induction false} CountersMatchSpans(currentState: string, states: seq<string>)
    ensures var l := Replay(Install(currentState), states);
      && l.foreground == CountNamed(l.spans, ForegroundSpan)
      && l.background == CountNamed(l.spans, BackgroundSpan)
      && |l.spans| == l.foreground + l.background
      && forall i :: 0 <= i < |l.spans| ==> l.spans[i].ends == 1 && l.spans[i].kind == Internal
    decreases |states|
  {
    if |states| > 0 {
      var n := |states| - 1;
      CountersMatchSpans(currentState, states[..n]);
      var before := Replay(Install(currentState), states[..n]);
      var after := OnChange(before, states[n]);
      if |after.spans| > |before.spans| {
        assert after.spans[..|after.spans| - 1] == before.spans;
      }
    }
  }

  /** The states the platform reports at run time. */
  predicate Lifecycle(state: string) {
    state == ActiveState || state == BackgroundState || state == InactiveState
  }

  /** With only active/background/inactive events, foreground and background
      alternate: the difference of the counters is fixed by where the app
      started and where it is now. */
  lemma {:induction false} CountsAlternate(currentState: string, states: seq<string>)
    requires forall i :: 0 <= i < |states| ==> Lifecycle(states[i])
    ensures var l := Replay(Install(currentState), states);
      l.foreground as int - l.background as int ==
        (if l.lastState == ActiveState then 1 else 0) - (if currentState == ActiveState then 1 else 0)
    decreases |states|
  {
    if |states| > 0 {
      CountsAlternate(currentState, states[..|states| - 1]);
    }
  }

  /** Other states (`unknown`, `extension`) are remembered but count nothing,
      so a return to `active` after one of them counts a second foreground
      with no background in between. */
  lemma OtherStateRecountsForeground()
    ensures Replay(Install(ActiveState), ["unknown", ActiveState]).foreground == 1
    ensures Replay(Install(ActiveState), ["unknown", ActiveState]).background == 0
  {
    var states := ["unknown", ActiveState];
    var start := Install(ActiveState);
    assert states[..1] == ["unknown"];
    assert Replay(start, states[..1]) == OnChange(Replay(start, []), "unknown");
    assert Replay(start, states[..1]).lastState == "unknown";
    assert Replay(start, states) == OnChange(Replay(start, states[..1]), ActiveState);
  }
}
