/** The runtime shim injected into the preview document: console interception and the
    inspector state machine. `ShimState` and the step functions are its specification;
    class `Runtime` is the shim itself, with the two variables `inspectEnabled` and
    `lastEl`, the document's elements and the messages it has posted to the host. */
module Shim {
  import opened Wrappers
  import opened Text
  import opened Protocol
  import opened Dom

  /** A console argument as `Array.prototype.join` sees it: `null` and `undefined`
      become the empty string, any other value its string conversion. */
  datatype Arg = Nullish | Value(shown: string)

  function ArgText(a: Arg): string
  {
    match a
    case Nullish => ""
    case Value(shown) => shown
  }

  function ArgTexts(args: seq<Arg>): seq<string>
  {
    seq(|args|, k requires 0 <= k < |args| => ArgText(args[k]))
  }

  /** The text one console call sends: its arguments joined with a single space. */
  function ConsoleText(args: seq<Arg>): string
  {
    Join(ArgTexts(args), " ")
  }

  /** No argument is lost or merged: when no argument's text holds a space, splitting
      the sent text at spaces gives back exactly the arguments' texts, in order. */
  lemma ConsoleTextSplits(args: seq<Arg>)
    requires |args| >= 1
    requires forall k :: 0 <= k < |args| ==> ' ' !in ArgText(args[k])
    ensures Split(ConsoleText(args), ' ') == ArgTexts(args)
  {
    assert [' '] == " ";
    SplitJoin(ArgTexts(args), ' ');
  }

  datatype Level = LogLevel | ErrorLevel

  /** The shim's state. `outbox` holds the messages posted to the host, oldest first. */
  datatype ShimState = ShimState(
    dom: map<ElemId, Element>,
    enabled: bool,
    lastEl: Option<ElemId>,
    outbox: seq<Message>)

  /** The tracked element is an element of the document. */
  predicate Tracked(s: ShimState)
  {
    s.lastEl.Some? ==> s.lastEl.value in s.dom
  }

  /** The elements that carry the highlight class. */
  function Highlights(s: ShimState): set<ElemId>
  {
    set id | id in s.dom && Highlighted(s.dom[id])
  }

  /** At most one element is highlighted, and it is the tracked one. */
  predicate OnlyTrackedHighlighted(s: ShimState)
  {
    forall id :: id in Highlights(s) ==> s.lastEl == Some(id)
  }

  /** The state right after the document loads: disarmed, tracking nothing, nothing sent. */
  function Start(dom: map<ElemId, Element>): ShimState
  {
    ShimState(dom, false, None, [])
  }

  /** Takes the highlight class off the tracked element, when there is one. */
  function ClearTracked(dom: map<ElemId, Element>, lastEl: Option<ElemId>): map<ElemId, Element>
    requires lastEl.Some? ==> lastEl.value in dom
  {
    if lastEl.Some? then dom[lastEl.value := WithoutHighlight(dom[lastEl.value])] else dom
  }

  /** The `message` listener: `INSPECT_ON` arms, `INSPECT_OFF` disarms and clears the
      tracked element's highlight; every other message is ignored. */
  function OnMessage(s: ShimState, m: Message): ShimState
    requires Tracked(s)
  {
    if m == InspectOn then s.(enabled := true)
    else if m == InspectOff then s.(enabled := false, dom := ClearTracked(s.dom, s.lastEl))
    else s
  }

  /** The `mousemove` listener. */
  function OnMouseMove(s: ShimState, target: ElemId): ShimState
    requires Tracked(s) && target in s.dom
  {
    if !s.enabled then s
    else
      var dom := ClearTracked(s.dom, s.lastEl);
      s.(dom := dom[target := WithHighlight(dom[target])], lastEl := Some(target))
  }

  /** The capture-phase `click` listener; the flag says whether the click was swallowed
      (`preventDefault` and `stopPropagation`). The snapshot is taken as written, before
      the highlight is cleared, so its class string is the element's whole class list. */
  function OnClick(s: ShimState, target: ElemId): (ShimState, bool)
    requires Tracked(s) && target in s.dom
  {
    if !s.enabled then (s, false)
    else
      (s.(outbox := s.outbox + [ElementSelected(PickAsWritten(s.dom[target]))],
          enabled := false,
          dom := ClearTracked(s.dom, s.lastEl)),
       true)
  }

  /** The click listener with the report corrected: the same as `OnClick`, except that
      the snapshot leaves the inspector's own highlight class out. */
  function OnClickFixed(s: ShimState, target: ElemId): (ShimState, bool)
    requires Tracked(s) && target in s.dom
  {
    var (r, swallowed) := OnClick(s, target);
    if swallowed then (r.(outbox := s.outbox + [ElementSelected(Pick(s.dom[target]))]), true)
    else (r, false)
  }

  /** The replaced `console.log` and `console.error`. */
  function OnConsole(s: ShimState, level: Level, args: seq<Arg>): ShimState
  {
    var text := ConsoleText(args);
    s.(outbox := s.outbox + [if level == LogLevel then Log(text) else Error(text)])
  }

  datatype Event =
    | Receive(m: Message)
    | MouseMove(target: ElemId)
    | Click(target: ElemId)
    | Console(level: Level, args: seq<Arg>)

  /** A pointer event's target is an element of the document. */
  predicate Targets(elements: set<ElemId>, e: Event)
  {
    (e.MouseMove? || e.Click?) ==> e.target in elements
  }

  function Step(s: ShimState, e: Event): ShimState
    requires Tracked(s) && Targets(s.dom.Keys, e)
  {
    match e
    case Receive(m) => OnMessage(s, m)
    case MouseMove(t) => OnMouseMove(s, t)
    case Click(t) => OnClick(s, t).0
    case Console(level, args) => OnConsole(s, level, args)
  }

  /** The shim's state after handling `events` in order. */
  function Run(s: ShimState, events: seq<Event>): ShimState
    requires Tracked(s)
    requires forall k :: 0 <= k < |events| ==> Targets(s.dom.Keys, events[k])
    decreases |events|
  {
    if events == [] then s
    else
      StepKeeps(s, events[0]);
      assert forall k :: 0 <= k < |events| - 1 ==> events[1..][k] == events[k + 1];
      Run(Step(s, events[0]), events[1..])
  }

  /** Clearing the tracked element's highlight removes exactly that element from the
      highlighted set and changes nothing else about any element. */
  lemma ClearTrackedEffect(s: ShimState)
    requires Tracked(s)
    ensures var dom := ClearTracked(s.dom, s.lastEl);
      && dom.Keys == s.dom.Keys
      && (forall id :: id in dom ==> SameButHighlight(s.dom[id], dom[id]))
      && Highlights(s.(dom := dom)) == Highlights(s) - (if s.lastEl.Some? then {s.lastEl.value} else {})
  {
    if s.lastEl.Some? {
      HighlightOnlyTouchesHover(s.dom[s.lastEl.value]);
    }
  }

  /** Every event keeps the document's elements and the tracked element in the document,
      changes elements only in the highlight class, and only ever appends to the outbox. */
  lemma StepKeeps(s: ShimState, e: Event)
    requires Tracked(s) && Targets(s.dom.Keys, e)
    ensures Tracked(Step(s, e))
    ensures Step(s, e).dom.Keys == s.dom.Keys
    ensures forall id :: id in s.dom ==> SameButHighlight(s.dom[id], Step(s, e).dom[id])
    ensures s.outbox <= Step(s, e).outbox
  {
    ClearTrackedEffect(s);
    if e.MouseMove? && s.enabled {
      var dom := ClearTracked(s.dom, s.lastEl);
      HighlightOnlyTouchesHover(dom[e.target]);
    }
  }

  /** `INSPECT_ON` arms the inspector and changes nothing else. */
  lemma InspectOnArms(s: ShimState)
    requires Tracked(s)
    ensures OnMessage(s, InspectOn) == s.(enabled := true)
  {
  }

  /** `INSPECT_OFF` disarms the inspector and takes the highlight off the tracked element,
      whatever the state was; nothing is sent and the tracked element stays recorded. When
      only the tracked element was highlighted, nothing is highlighted afterwards. */
  lemma InspectOffDisarms(s: ShimState)
    requires Tracked(s)
    ensures var r := OnMessage(s, InspectOff);
      && !r.enabled && r.lastEl == s.lastEl && r.outbox == s.outbox
      && Highlights(r) == Highlights(s) - (if s.lastEl.Some? then {s.lastEl.value} else {})
      && (OnlyTrackedHighlighted(s) ==> Highlights(r) == {})
  {
    ClearTrackedEffect(s);
  }

  /** Any other message, including ones the host never sends, leaves the shim as it was. */
  lemma OtherMessagesIgnored(s: ShimState, m: Message)
    requires Tracked(s) && m != InspectOn && m != InspectOff
    ensures OnMessage(s, m) == s
  {
  }

  /** While disarmed, pointer moves and clicks change nothing and clicks pass through. */
  lemma DisarmedIgnoresPointer(s: ShimState, target: ElemId)
    requires Tracked(s) && target in s.dom && !s.enabled
    ensures OnMouseMove(s, target) == s
    ensures OnClick(s, target) == (s, false)
  {
  }

  /** While armed, a move takes the highlight off the previously tracked element and puts
      it on the target, which becomes the tracked element; when only the tracked element
      was highlighted before, the target is now the only highlighted element. */
  lemma ArmedMoveHighlightsTarget(s: ShimState, target: ElemId)
    requires Tracked(s) && target in s.dom && s.enabled
    ensures var r := OnMouseMove(s, target);
      && r.lastEl == Some(target) && r.enabled && r.outbox == s.outbox
      && Highlights(r) == Highlights(s) - (if s.lastEl.Some? then {s.lastEl.value} else {}) + {target}
      && (OnlyTrackedHighlighted(s) ==> Highlights(r) == {target})
  {
    ClearTrackedEffect(s);
    var dom := ClearTracked(s.dom, s.lastEl);
    HighlightOnlyTouchesHover(dom[target]);
    var r := OnMouseMove(s, target);
    assert Highlights(r) == Highlights(s.(dom := dom)) + {target};
  }

  /** While armed, a click is swallowed, sends exactly one `ELEMENT_SELECTED` carrying the
      as-written snapshot of the clicked element as it is at that moment, disarms the inspector and takes
      the highlight off the tracked element, leaving nothing highlighted when only the
      tracked element was. */
  lemma ArmedClickPicks(s: ShimState, target: ElemId)
    requires Tracked(s) && target in s.dom && s.enabled
    ensures var (r, swallowed) := OnClick(s, target);
      && swallowed && !r.enabled && r.lastEl == s.lastEl
      && r.outbox == s.outbox + [ElementSelected(PickAsWritten(s.dom[target]))]
      && Highlights(r) == Highlights(s) - (if s.lastEl.Some? then {s.lastEl.value} else {})
      && (OnlyTrackedHighlighted(s) ==> Highlights(r) == {})
  {
    ClearTrackedEffect(s);
  }

  /** A console call posts exactly one message, of the call's level, carrying the joined
      arguments, and changes nothing else. */
  lemma ConsolePosts(s: ShimState, level: Level, args: seq<Arg>)
    ensures var r := OnConsole(s, level, args);
      && r.outbox == s.outbox + [if level == LogLevel then Log(ConsoleText(args)) else Error(ConsoleText(args))]
      && r.(outbox := s.outbox) == s
  {
  }

  /** Every event keeps "only the tracked element is highlighted". */
  lemma StepKeepsSingleHighlight(s: ShimState, e: Event)
    requires Tracked(s) && Targets(s.dom.Keys, e) && OnlyTrackedHighlighted(s)
    ensures OnlyTrackedHighlighted(Step(s, e))
  {
    match e
    case Receive(m) =>
      if m == InspectOff { InspectOffDisarms(s); }
    case MouseMove(t) =>
      if s.enabled { ArmedMoveHighlightsTarget(s, t); }
    case Click(t) =>
      if s.enabled { ArmedClickPicks(s, t); }
    case Console(_, _) =>
  }

  /** Over any run of events the tracked element stays in the document and no more than
      that one element is ever highlighted; a freshly loaded document, whose author did
      not use the highlight class, starts in that state. */
  lemma {:induction false} RunKeepsSingleHighlight(s: ShimState, events: seq<Event>)
    requires Tracked(s) && OnlyTrackedHighlighted(s)
    requires forall k :: 0 <= k < |events| ==> Targets(s.dom.Keys, events[k])
    ensures Tracked(Run(s, events)) && OnlyTrackedHighlighted(Run(s, events))
    ensures Run(s, events).dom.Keys == s.dom.Keys
    decreases |events|
  {
    if events != [] {
      StepKeeps(s, events[0]);
      StepKeepsSingleHighlight(s, events[0]);
      RunKeepsSingleHighlight(Step(s, events[0]), events[1..]);
    }
  }

  /** One move event per target, in order. */
  function Moves(targets: seq<ElemId>): seq<Event>
  {
    seq(|targets|, k requires 0 <= k < |targets| => MouseMove(targets[k]))
  }

  /** Moving the armed pointer over elements A, B, ..., Z leaves exactly Z highlighted
      and tracked, and the inspector still armed. */
  lemma {:induction false} ArmedMovesEndOnLast(s: ShimState, targets: seq<ElemId>)
    requires Tracked(s) && OnlyTrackedHighlighted(s) && s.enabled
    requires |targets| >= 1
    requires forall k :: 0 <= k < |targets| ==> targets[k] in s.dom
    ensures Run(s, Moves(targets)).enabled
    ensures Run(s, Moves(targets)).lastEl == Some(targets[|targets| - 1])
    ensures Highlights(Run(s, Moves(targets))) == {targets[|targets| - 1]}
    decreases |targets|
  {
    var r := OnMouseMove(s, targets[0]);
    ArmedMoveHighlightsTarget(s, targets[0]);
    StepKeeps(s, MouseMove(targets[0]));
    assert Moves(targets)[1..] == Moves(targets[1..]);
    if |targets| > 1 {
      ArmedMovesEndOnLast(r, targets[1..]);
    } else {
      assert Moves(targets)[1..] == [];
    }
  }

  /** As written, the highlight leaks into every pick: the pointer moves onto an element
      before it clicks it, so the class string sent for an element whose class tokens are
      well formed names `__inspect-hover` among its tokens, whatever the element's own
      classes are. */
  lemma MoveThenClickLeaksHighlight(s: ShimState, target: ElemId)
    requires Tracked(s) && target in s.dom && s.enabled
    requires Tokens(s.dom[target].classes)
    ensures var moved := OnMouseMove(s, target);
      var (r, swallowed) := OnClick(moved, target);
      && swallowed
      && r.outbox == s.outbox + [ElementSelected(PickAsWritten(moved.dom[target]))]
      && HoverClass in Split(r.outbox[|s.outbox|].snapshot.className, ' ')
  {
    var cleared := ClearTracked(s.dom, s.lastEl);
    var moved := OnMouseMove(s, target);
    HighlightKeepsTokens(s.dom[target]);
    assert Tokens(cleared[target].classes);
    HighlightKeepsTokens(cleared[target]);
    HighlightOnlyTouchesHover(cleared[target]);
    assert moved.dom[target] == WithHighlight(cleared[target]);
    PickAsWrittenShowsHighlight(moved.dom[target]);
  }

  /** The corrected listener reports the element as its author wrote it: after the move
      that highlights it, the click sends the same snapshot as for the element before the
      move, and its class string never names the highlight class. */
  lemma MoveThenFixedClickReportsElement(s: ShimState, target: ElemId)
    requires Tracked(s) && target in s.dom && s.enabled
    requires Tokens(s.dom[target].classes)
    ensures var moved := OnMouseMove(s, target);
      var (r, swallowed) := OnClickFixed(moved, target);
      && swallowed && !r.enabled
      && r.(outbox := []) == OnClick(moved, target).0.(outbox := [])
      && r.outbox == s.outbox + [ElementSelected(Pick(s.dom[target]))]
      && HoverClass !in Split(Pick(s.dom[target]).className, ' ')
  {
    var el := s.dom[target];
    var cleared := ClearTracked(s.dom, s.lastEl);
    StepKeeps(s, MouseMove(target));
    PickIgnoresHighlight(el);
    PickIgnoresHighlight(cleared[target]);
    PickOmitsHighlight(el);
  }

  /** The shim as it runs in the preview frame. */
  class Runtime {
    var dom: map<ElemId, Element>
    var inspectEnabled: bool
    var lastEl: Option<ElemId>
    var outbox: seq<Message>

    function State(): ShimState
      reads this
    {
      ShimState(dom, inspectEnabled, lastEl, outbox)
    }

    ghost predicate Valid()
      reads this
    {
      Tracked(State())
    }

    /** The shim as installed when the document loads. */
    constructor (elements: map<ElemId, Element>)
      ensures Valid() && State() == Start(elements)
    {
      dom := elements;
      inspectEnabled := false;
      lastEl := None;
      outbox := [];
    }

    /** Takes the highlight class off the tracked element, when there is one. */
    method ClearLast()
      requires Valid()
      modifies this
      ensures Valid()
      ensures State() == old(State()).(dom := ClearTracked(old(dom), old(lastEl)))
    {
      if lastEl.Some? {
        var id := lastEl.value;
        dom := dom[id := WithoutHighlight(dom[id])];
      }
    }

    method ReceiveMessage(m: Message)
      requires Valid()
      modifies this
      ensures Valid()
      ensures State() == OnMessage(old(State()), m)
      ensures m == InspectOff && old(OnlyTrackedHighlighted(State())) ==> Highlights(State()) == {}
    {
      ghost var before := State();
      if m == InspectOn {
        inspectEnabled := true;
      }
      if m == InspectOff {
        inspectEnabled := false;
        ClearLast();
        InspectOffDisarms(before);
      }
    }

    method MouseMove(target: ElemId)
      requires Valid() && target in dom
      modifies this
      ensures Valid()
      ensures State() == OnMouseMove(old(State()), target)
      ensures old(inspectEnabled) && old(OnlyTrackedHighlighted(State())) ==> Highlights(State()) == {target}
    {
      if !inspectEnabled {
        return;
      }
      ghost var before := State();
      ClearLast();
      lastEl := Some(target);
      dom := dom[target := WithHighlight(dom[target])];
      ArmedMoveHighlightsTarget(before, target);
    }

    method Click(target: ElemId) returns (swallowed: bool)
      requires Valid() && target in dom
      modifies this
      ensures Valid()
      ensures (State(), swallowed) == OnClick(old(State()), target)
      ensures old(inspectEnabled) ==> outbox == old(outbox) + [ElementSelected(PickAsWritten(old(dom)[target]))]
      ensures old(inspectEnabled) && old(OnlyTrackedHighlighted(State())) ==> Highlights(State()) == {}
    {
      if !inspectEnabled {
        return false;
      }
      ghost var before := State();
      swallowed := true;
      var el := dom[target];
      outbox := outbox + [ElementSelected(PickAsWritten(el))];
      inspectEnabled := false;
      ClearLast();
      ArmedClickPicks(before, target);
    }

    /** The replaced `console.log`. */
    method ConsoleLog(args: seq<Arg>)
      modifies this
      ensures State() == OnConsole(old(State()), LogLevel, args)
      ensures outbox == old(outbox) + [Log(ConsoleText(args))]
    {
      outbox := outbox + [Log(Join(ArgTexts(args), " "))];
    }

    /** The replaced `console.error`. */
    method ConsoleError(args: seq<Arg>)
      modifies this
      ensures State() == OnConsole(old(State()), ErrorLevel, args)
      ensures outbox == old(outbox) + [Error(ConsoleText(args))]
    {
      outbox := outbox + [Error(Join(ArgTexts(args), " "))];
    }
  }
}
