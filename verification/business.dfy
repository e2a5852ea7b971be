/** `BusinessTracer` and `TrackedPressable` of `src/business.tsx`: the
    current business journey (a static field), one marker span per call with
    the `business.*` attributes under the caller's, and the press handler
    that records a `tap:` step before the caller's `onPress`. The clock
    (`Date.now()`) is an input of the calls that read it. */
module BusinessTracing {
  import opened Wrappers
  import opened Records
  import opened Spans
  import AnyValues

  const JourneyKey: string := "business.journey"
  const StepKey: string := "business.step"
  const CompletedKey: string := "business.completed"
  const DurationKey: string := "business.duration_ms"

  const UnknownJourney: string := "unknown"

  /** `currentJourney`: its name and the time it started. */
  datatype Journey = Journey(name: string, startTime: int)

  function JourneyName(current: Option<Journey>): (name: string)
    ensures current.Some? ==> name == current.value.name
    ensures current.None? ==> name == UnknownJourney
  {
    match current
    case Some(j) => j.name
    case None => UnknownJourney
  }

  /** The value of `business.duration_ms`: the elapsed time, or `undefined`
      without a journey. */
  function Duration(current: Option<Journey>, now: int): (d: AnyValues.HostValue)
    ensures current.Some? ==> d == AnyValues.Num(AnyValues.Finite((now - current.value.startTime) as real))
    ensures current.None? ==> d == AnyValues.Undefined
  {
    match current
    case Some(j) => AnyValues.Num(AnyValues.Finite((now - j.startTime) as real))
    case None => AnyValues.Undefined
  }

  /** `BusinessTracer.start(journeyName, attrs)`: replaces any current journey
      and emits an ended `Journey <name>` span tagged with the journey, unless
      the caller's attributes say otherwise. */
  function Start(current: Option<Journey>, journeyName: string, attrs: Record<AnyValues.HostValue>, now: int)
    : (r: (Option<Journey>, SpanRecord))
    requires UniqueKeys(attrs)
    ensures r.0 == Some(Journey(journeyName, now))
    ensures r.1.name == "Journey " + journeyName && r.1.kind == Internal && r.1.ends == 1
    ensures forall k :: Get(r.1.attributes, k) ==
              if HasKey(attrs, k) then Get(attrs, k)
              else if k == JourneyKey then Some(AnyValues.Str(journeyName)) else None
  {
    var base := [(JourneyKey, AnyValues.Str(journeyName))];
    (Some(Journey(journeyName, now)), Marker("Journey " + journeyName, Overlay(base, attrs)))
  }

  /** `BusinessTracer.step(stepName, attrs)`: leaves the journey as it is and
      emits an ended `Step <name>` span tagged with the current journey's name
      (or `unknown`) and the step. */
  function Step(current: Option<Journey>, stepName: string, attrs: Record<AnyValues.HostValue>): (span: SpanRecord)
    requires UniqueKeys(attrs)
    ensures span.name == "Step " + stepName && span.kind == Internal && span.ends == 1
    ensures forall k :: Get(span.attributes, k) ==
              if HasKey(attrs, k) then Get(attrs, k)
              else if k == JourneyKey then Some(AnyValues.Str(JourneyName(current)))
              else if k == StepKey then Some(AnyValues.Str(stepName))
              else None
  {
    var base := [(JourneyKey, AnyValues.Str(JourneyName(current))), (StepKey, AnyValues.Str(stepName))];
    forall k ensures Get(base, k) == if k == JourneyKey then Some(AnyValues.Str(JourneyName(current)))
                                     else if k == StepKey then Some(AnyValues.Str(stepName)) else None {
      assert base[1..] == [(StepKey, AnyValues.Str(stepName))];
      assert base[1..][1..] == [];
    }
    Marker("Step " + stepName, Overlay(base, attrs))
  }

  /** `BusinessTracer.complete(attrs)`: emits an ended `Journey <name>
      Complete` span marked completed with the elapsed time, then clears the
      journey. */
  function Complete(current: Option<Journey>, attrs: Record<AnyValues.HostValue>, now: int)
    : (r: (Option<Journey>, SpanRecord))
    requires UniqueKeys(attrs)
    ensures r.0.None?
    ensures r.1.name == "Journey " + JourneyName(current) + " Complete" && r.1.kind == Internal && r.1.ends == 1
    ensures forall k :: Get(r.1.attributes, k) ==
              if HasKey(attrs, k) then Get(attrs, k)
              else if k == JourneyKey then Some(AnyValues.Str(JourneyName(current)))
              else if k == CompletedKey then Some(AnyValues.Bool(true))
              else if k == DurationKey then Some(Duration(current, now))
              else None
  {
    var base := [(JourneyKey, AnyValues.Str(JourneyName(current))),
                 (CompletedKey, AnyValues.Bool(true)),
                 (DurationKey, Duration(current, now))];
    forall k ensures Get(base, k) == if k == JourneyKey then Some(AnyValues.Str(JourneyName(current)))
                                     else if k == CompletedKey then Some(AnyValues.Bool(true))
                                     else if k == DurationKey then Some(Duration(current, now)) else None {
      var tail := [(CompletedKey, AnyValues.Bool(true)), (DurationKey, Duration(current, now))];
      assert base[1..] == tail;
      assert tail[1..] == [(DurationKey, Duration(current, now))];
      assert Get(tail, k) == if k == CompletedKey then Some(AnyValues.Bool(true))
                             else if k == DurationKey then Some(Duration(current, now)) else None;
    }
    (None, Marker("Journey " + JourneyName(current) + " Complete", Overlay(base, attrs)))
  }

  // ---------------------------------------------------------------------
  // TrackedPressable

  /** A pressable's children: a plain string, or anything else. */
  datatype Children = TextChild(text: string) | OtherChildren

  /** The label: a non-empty accessibility label, else string children (even
      an empty one), else `pressable`. */
  function Label(accessibilityLabel: Option<string>, children: Children): (shown: string)
    ensures accessibilityLabel.Some? && accessibilityLabel.value != "" ==> shown == accessibilityLabel.value
    ensures (accessibilityLabel.None? || accessibilityLabel.value == "") && children.TextChild? ==>
      shown == children.text
    ensures (accessibilityLabel.None? || accessibilityLabel.value == "") && children.OtherChildren? ==>
      shown == "pressable"
  {
    if accessibilityLabel.Some? && accessibilityLabel.value != "" then accessibilityLabel.value
    else match children
      case TextChild(text) => text
      case OtherChildren => "pressable"
  }

  datatype PressableProps = PressableProps(accessibilityLabel: Option<string>, children: Children, hasOnPress: bool)

  /** What a press does, in order. */
  datatype PressEffect = RecordedStep(span: SpanRecord) | CalledOnPress

  /** `handlePress`: the `tap:<label>` step first, then the caller's
      `onPress` when there is one. */
  function Press(current: Option<Journey>, props: PressableProps): (effects: seq<PressEffect>)
    ensures |effects| == if props.hasOnPress then 2 else 1
    ensures effects[0] == RecordedStep(Step(current, "tap:" + Label(props.accessibilityLabel, props.children), []))
    ensures props.hasOnPress ==> effects[1] == CalledOnPress
  {
    var step := RecordedStep(Step(current, "tap:" + Label(props.accessibilityLabel, props.children), []));
    if props.hasOnPress then [step, CalledOnPress] else [step]
  }

  // ---------------------------------------------------------------------
  // A session of calls

  datatype BusinessCall =
    | StartCall(journeyName: string, attrs: Record<AnyValues.HostValue>, now: int)
    | StepCall(stepName: string, attrs: Record<AnyValues.HostValue>)
    | CompleteCall(attrs: Record<AnyValues.HostValue>, now: int)
    | PressCall(props: PressableProps)

  predicate WellFormedCall(c: BusinessCall) {
    !c.PressCall? ==> UniqueKeys(c.attrs)
  }

  /** The journey and the spans after a sequence of calls from no journey. */
  function Session(calls: seq<BusinessCall>): (r: (Option<Journey>, seq<SpanRecord>))
    requires forall i :: 0 <= i < |calls| ==> WellFormedCall(calls[i])
    ensures |r.1| == |calls|
    ensures forall i :: 0 <= i < |r.1| ==> r.1[i].ends == 1 && r.1[i].kind == Internal
    decreases |calls|
  {
    if |calls| == 0 then (None, [])
    else
      var n := |calls| - 1;
      var (current, spans) := Session(calls[..n]);
      assert WellFormedCall(calls[n]);
      match calls[n]
      case StartCall(name, attrs, now) =>
        var (next, span) := Start(current, name, attrs, now);
        (next, spans + [span])
      case StepCall(name, attrs) => (current, spans + [Step(current, name, attrs)])
      case CompleteCall(attrs, now) =>
        var (next, span) := Complete(current, attrs, now);
        (next, spans + [span])
      case PressCall(props) =>
        (current, spans + [Press(current, props)[0].span])
  }

  /** Call `i` starts a journey that no later start or complete has closed. */
  predicate OpenAt(calls: seq<BusinessCall>, i: int) {
    0 <= i < |calls| && calls[i].StartCall? &&
    forall j :: i < j < |calls| ==> !calls[j].StartCall? && !calls[j].CompleteCall?
  }

  /** The current journey is the one started by the last start that no
      complete has followed, with that call's name and clock reading; there is
      none when every start has been completed or replaced. */
  lemma {:induction false} CurrentJourneyIsLastOpenStart(calls: seq<BusinessCall>)
    requires forall i :: 0 <= i < |calls| ==> WellFormedCall(calls[i])
    ensures Session(calls).0.Some? <==> exists i :: OpenAt(calls, i)
    ensures forall i :: OpenAt(calls, i) ==>
              Session(calls).0 == Some(Journey(calls[i].journeyName, calls[i].now))
    decreases |calls|
  {
    if |calls| > 0 {
      var n := |calls| - 1;
      var init := calls[..n];
      CurrentJourneyIsLastOpenStart(init);
      forall i | 0 <= i < n && OpenAt(calls, i) ensures OpenAt(init, i) {
        forall j | i < j < n ensures !init[j].StartCall? && !init[j].CompleteCall? {
          assert init[j] == calls[j];
        }
      }
      if calls[n].StartCall? {
        assert OpenAt(calls, n);
        forall i | OpenAt(calls, i) ensures i == n {
        }
      } else if calls[n].CompleteCall? {
        forall i | 0 <= i < |calls| ensures !OpenAt(calls, i) {
        }
      } else {
        forall i | 0 <= i < n && OpenAt(init, i) ensures OpenAt(calls, i) {
          forall j | i < j < |calls| ensures !calls[j].StartCall? && !calls[j].CompleteCall? {
            if j < n {
              assert init[j] == calls[j];
            }
          }
        }
        assert !OpenAt(calls, n);
      }
    }
  }

  /** A step or press made while a journey is open is tagged with that
      journey's name, unless its own attributes override the tag; with no
      open journey it is tagged `unknown`. */
  lemma StepTagsOpenJourney(calls: seq<BusinessCall>, stepName: string)
    requires forall i :: 0 <= i < |calls| ==> WellFormedCall(calls[i])
    ensures forall i :: OpenAt(calls, i) ==>
              Get(Session(calls + [StepCall(stepName, [])]).1[|calls|].attributes, JourneyKey) ==
                Some(AnyValues.Str(calls[i].journeyName))
    ensures (forall i :: !OpenAt(calls, i)) ==>
              Get(Session(calls + [StepCall(stepName, [])]).1[|calls|].attributes, JourneyKey) ==
                Some(AnyValues.Str(UnknownJourney))
  {
    var all := calls + [StepCall(stepName, [])];
    assert all[..|calls|] == calls;
    CurrentJourneyIsLastOpenStart(calls);
  }
}
