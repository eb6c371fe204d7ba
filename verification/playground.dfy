/** The host and the preview frame together. Delivery of a posted message is modelled as
    the receiving side's handler applied to it, in the order the messages were posted. */
module Playground {
  import opened Wrappers
  import opened Text
  import opened Protocol
  import opened Dom
  import opened DocumentCompiler
  import opened Shim
  import opened Host

  /** One console call of the user's script. */
  datatype Call = Call(level: Level, args: seq<Arg>)

  /** The console events of a script's calls, one per call, in order. */
  function CallEvents(calls: seq<Call>): seq<Event>
  {
    seq(|calls|, k requires 0 <= k < |calls| => Console(calls[k].level, calls[k].args))
  }

  /** The text each call sends, in call order. */
  function CallTexts(calls: seq<Call>): seq<string>
  {
    seq(|calls|, k requires 0 <= k < |calls| => ConsoleText(calls[k].args))
  }

  /** The shim posts one message per console call, and the host reads back exactly the
      calls' texts from them, in call order. */
  lemma {:induction false} CallsPostTheirTexts(s: ShimState, calls: seq<Call>)
    requires Tracked(s)
    ensures forall k :: 0 <= k < |calls| ==> Targets(s.dom.Keys, CallEvents(calls)[k])
    ensures s.outbox <= Run(s, CallEvents(calls)).outbox
    ensures LogTexts(Run(s, CallEvents(calls)).outbox[|s.outbox|..]) == CallTexts(calls)
    decreases |calls|
  {
    if calls != [] {
      var c := calls[0];
      var s1 := OnConsole(s, c.level, c.args);
      assert CallEvents(calls)[1..] == CallEvents(calls[1..]);
      assert Step(s, CallEvents(calls)[0]) == s1;
      CallsPostTheirTexts(s1, calls[1..]);
      var out := Run(s, CallEvents(calls)).outbox;
      assert out == Run(s1, CallEvents(calls[1..])).outbox;
      var m := if c.level == LogLevel then Log(ConsoleText(c.args)) else Error(ConsoleText(c.args));
      assert s1.outbox == s.outbox + [m];
      assert out[|s.outbox|..] == [m] + out[|s1.outbox|..];
      assert ([m] + out[|s1.outbox|..])[1..] == out[|s1.outbox|..];
      assert CallTexts(calls) == [ConsoleText(c.args)] + CallTexts(calls[1..]);
    } else {
      assert Run(s, CallEvents(calls)) == s;
    }
  }

  /** After a rebuild, the log shows exactly what the new document's script printed, one
      line per console call, in call order. */
  lemma LogShowsScriptOutput(h: HostState, files: Files, elements: map<ElemId, Element>, calls: seq<Call>)
    ensures forall k :: 0 <= k < |calls| ==> Targets(elements.Keys, CallEvents(calls)[k])
    ensures Deliver(Rebuild(h, files), Run(Start(elements), CallEvents(calls)).outbox).logs == CallTexts(calls)
  {
    CallsPostTheirTexts(Start(elements), calls);
    var out := Run(Start(elements), CallEvents(calls)).outbox;
    assert out[0..] == out;
    RebuildResetsLogs(h, files, out);
  }

  /** `console.log("a"); console.log("b")` leaves the log as exactly `["a", "b"]`. */
  lemma TwoLogsInOrder(h: HostState, files: Files, elements: map<ElemId, Element>)
    ensures var calls := [Call(LogLevel, [Value("a")]), Call(LogLevel, [Value("b")])];
      Deliver(Rebuild(h, files), Run(Start(elements), CallEvents(calls)).outbox).logs == ["a", "b"]
  {
    var calls := [Call(LogLevel, [Value("a")]), Call(LogLevel, [Value("b")])];
    LogShowsScriptOutput(h, files, elements, calls);
    assert ArgTexts([Value("a")]) == ["a"] && ArgTexts([Value("b")]) == ["b"];
    assert CallTexts(calls) == ["a", "b"];
  }

  /** The host's inspect mode agrees with the frame's `inspectEnabled`. */
  predicate InSync(h: HostState, s: ShimState)
  {
    h.hasFrame && h.inspectMode == s.enabled
  }

  /** Toggling sends the command that makes the frame follow the host's new mode. */
  lemma ToggleKeepsSync(h: HostState, s: ShimState)
    requires InSync(h, s) && Tracked(s)
    ensures Toggle(h).1.Some?
    ensures InSync(Toggle(h).0, OnMessage(s, Toggle(h).1.value))
  {
  }

  /** A pick in the armed frame, once its message is delivered, leaves both sides off,
      with the host showing the pick of the clicked element. */
  lemma PickKeepsSync(h: HostState, s: ShimState, target: ElemId)
    requires InSync(h, s) && Tracked(s) && s.enabled && target in s.dom
    ensures var r := OnClick(s, target).0;
      && InSync(Deliver(h, r.outbox[|s.outbox|..]), r)
      && !r.enabled
      && Deliver(h, r.outbox[|s.outbox|..]).selected == Some(PickAsWritten(s.dom[target]))
      && Deliver(h, r.outbox[|s.outbox|..]).logs == h.logs
  {
    var r := OnClick(s, target).0;
    var m := ElementSelected(PickAsWritten(s.dom[target]));
    assert r.outbox[|s.outbox|..] == [m];
    assert Deliver(h, [m]) == Handle(h, m) by {
      assert [m][1..] == [];
    }
  }

  /** As written, the inspector panel shows the highlight class: after the armed pointer
      moves onto an element and clicks it, the host's selected record names
      `__inspect-hover` among its class tokens. */
  lemma HostShowsHighlightClass(h: HostState, s: ShimState, target: ElemId)
    requires Tracked(s) && s.enabled && target in s.dom && Tokens(s.dom[target].classes)
    ensures var moved := OnMouseMove(s, target);
      var r := OnClick(moved, target).0;
      var shown := Deliver(h, r.outbox[|s.outbox|..]).selected;
      shown.Some? && HoverClass in Split(shown.value.className, ' ')
  {
    var moved := OnMouseMove(s, target);
    StepKeeps(s, MouseMove(target));
    MoveThenClickLeaksHighlight(s, target);
    var r := OnClick(moved, target).0;
    var m := ElementSelected(PickAsWritten(moved.dom[target]));
    assert r.outbox[|s.outbox|..] == [m];
    assert Deliver(h, [m]) == Handle(h, m) by {
      assert [m][1..] == [];
    }
  }

  /** A rebuild loads a fresh frame whose inspector is disarmed, while the host keeps its
      inspect mode: the two agree afterwards exactly when inspect mode was off. */
  lemma RebuildSyncOnlyWhenIdle(h: HostState, files: Files, elements: map<ElemId, Element>)
    requires h.hasFrame
    ensures !Start(elements).enabled
    ensures InSync(Rebuild(h, files), Start(elements)) <==> !h.inspectMode
  {
  }
}
